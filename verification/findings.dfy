/**
 * The merge handler as the bot's code has it. The output name
 * merged_<user>.pdf is the same for every merge of one user, and after a
 * first merge it is the first entry of the list; a second merge then writes
 * its result to that name and its clean-up loop deletes every input,
 * including the file it has just written. The session is left listing only
 * a file that no longer exists.
 */
module Findings {
  import opened Common
  import opened TempFiles
  import opened Menu
  import opened Sessions
  import opened Handlers

  /** The directory after a merge that deletes all of `inputs`, the output among them if listed. */
  function FilesAfterMergeAsWritten(files: set<TempPath>, inputs: seq<TempPath>, out: TempPath): (r: set<TempPath>)
    ensures out in inputs ==> out !in r
    ensures out !in inputs ==> r == FilesAfterMerge(files, inputs, out)
  {
    (files + {out}) - PathSet(inputs)
  }

  /**
   * The merge callback as written: like `MergeAction`, but the clean-up loop
   * deletes every input, whatever its name.
   */
  method MergeActionAsWritten(s: UserSession, fs: FileSystem, mergeOk: bool) returns (reply: Reply)
    requires s.Valid()
    modifies s, fs
    ensures s.Valid()
    ensures s.state == old(s.state) && s.tempData == old(s.tempData)
    ensures |old(s.pdfs)| < 2 ==>
      unchanged(s) && fs.files == old(fs.files) && reply == Error(TooFewPdfs)
    ensures |old(s.pdfs)| >= 2 && !mergeOk ==>
      unchanged(s) && fs.files == old(fs.files) && reply == ErrorWithMenu(MergeError, MainMenu(|s.pdfs|))
    ensures |old(s.pdfs)| >= 2 && mergeOk && (forall p :: p in old(s.pdfs) ==> p in old(fs.files) + {Merged(s.userId)}) ==>
      && s.pdfs == [Merged(s.userId)]
      && fs.files == FilesAfterMergeAsWritten(old(fs.files), old(s.pdfs), Merged(s.userId))
      && reply == SayWithMenu(PdfsMerged, MainMenu(1))
  {
    if |s.pdfs| < 2 {
      return Error(TooFewPdfs);
    }
    var out := Merged(s.userId);
    if !mergeOk {
      return ErrorWithMenu(MergeError, MainMenu(|s.pdfs|));
    }
    WellNamedDistinct(s.pdfs, s.userId);
    fs.Write(out);
    var i := 0;
    while i < |s.pdfs|
      invariant 0 <= i <= |s.pdfs|
      invariant fs.files == (old(fs.files) + {out}) - PathSet(s.pdfs[..i])
      modifies fs
    {
      var p := s.pdfs[i];
      assert s.pdfs[..i + 1] == s.pdfs[..i] + [p];
      assert p !in s.pdfs[..i];
      var removed := fs.Remove(p);
      if !removed {
        return Aborted;
      }
      i := i + 1;
    }
    assert s.pdfs[..i] == s.pdfs;
    s.pdfs := [out];
    reply := SayWithMenu(PdfsMerged, MainMenu(1));
  }

  /**
   * A fresh session after /start, an upload, "add another PDF" and a second
   * upload; the button press is needed because a document is ignored while
   * the session already has PDFs.
   */
  method TwoUploads(u: int) returns (s: UserSession, fs: FileSystem)
    ensures fresh(s) && fresh(fs)
    ensures s.Valid() && s.userId == u && s.state == HasPdfs
    ensures s.pdfs == [Upload(u, 0), Upload(u, 1)] && fs.files == {Upload(u, 0), Upload(u, 1)}
  {
    s := new UserSession(u);
    fs := new FileSystem();
    var r := StartCommand(s, fs);
    assert s.pdfs == [] && s.state == WaitingPdf && fs.files == {};
    r := HandleDocument(s, fs, "application/pdf", 1024, true, Some(3));
    assert s.pdfs == [Upload(u, 0)] && fs.files == {Upload(u, 0)};
    r := AddPdfAction(s);
    assert s.pdfs == [Upload(u, 0)] && s.state == WaitingPdf && fs.files == {Upload(u, 0)};
    r := HandleDocument(s, fs, "application/pdf", 2048, true, Some(2));
    assert s.pdfs == [Upload(u, 0)] + [Upload(u, 1)];
  }

  /**
   * Upload two PDFs, merge them, add a third: the session then lists the
   * first merge result followed by a fresh upload, and owns both files.
   */
  method SecondMergeSetup(u: int) returns (s: UserSession, fs: FileSystem)
    ensures fresh(s) && fresh(fs)
    ensures s.Valid() && s.userId == u && s.OwnsFiles(fs)
    ensures s.pdfs == [Merged(u), Upload(u, 1)] && s.state == HasPdfs
  {
    s, fs := TwoUploads(u);
    assert InputsPresent(s.pdfs, fs.files, Merged(u));
    var r := MergeAction(s, fs, true);
    assert s.pdfs == [Merged(u)] && Merged(u) in fs.files;
    r := AddPdfAction(s);
    r := HandleDocument(s, fs, "application/pdf", 4096, true, Some(4));
  }

  /** As written, the second merge leaves the session listing a deleted file. */
  method SecondMergeAsWritten(u: int) returns (s: UserSession, fs: FileSystem)
    ensures s.pdfs == [Merged(u)] && Merged(u) !in fs.files
    ensures !s.OwnsFiles(fs)
  {
    s, fs := SecondMergeSetup(u);
    var r := MergeActionAsWritten(s, fs, true);
  }

  /** With the output spared by the clean-up, the second merge keeps its result. */
  method SecondMergeCorrected(u: int) returns (s: UserSession, fs: FileSystem)
    ensures s.pdfs == [Merged(u)] && Merged(u) in fs.files
    ensures s.OwnsFiles(fs)
  {
    s, fs := SecondMergeSetup(u);
    var r := MergeAction(s, fs, true);
  }
}
