/**
 * The command, document, callback and text handlers. Each one looks up the
 * user's session, checks its guard, changes the session and the temporary
 * directory, and answers. What the answer says is reduced to a `Reply`; the
 * PDF library and the chat transport are reduced to the outcomes the handler
 * branches on, passed in as parameters.
 */
module Handlers {
  import opened Common
  import opened TempFiles
  import opened Menu
  import opened PageInput
  import opened Sessions

  /** The largest document accepted, in bytes (50 MiB). */
  const MaxFileSize: int := 50 * 1024 * 1024

  /** Why a request was refused or failed. */
  datatype Failure =
    | NotPdf | TooLarge | ProcessingError | InvalidPdf
    | NoPdfs | ReadError | TooFewPdfs | MergeError | SendError
    | BadNumber | PageOutOfRange(pageCount: int) | RemovalError

  /** What a successful step tells the user. */
  datatype Notice =
    | Welcome | Cancelled | AskForPdf | AskForPage(pageCount: nat)
    | PdfReceived | PdfsMerged | PageRemoved | ResetDone | Delivered(file: TempPath)

  /** The answer a handler gives. `Aborted`: the handler raised and nothing caught it. */
  datatype Reply =
    | Silent
    | Error(why: Failure)
    | ErrorWithMenu(why: Failure, menu: seq<Action>)
    | Say(notice: Notice)
    | SayWithMenu(notice: Notice, menu: seq<Action>)
    | Aborted

  // ---------------------------------------------------------------------------
  // Document guard

  /** What the document handler does before it downloads anything. */
  datatype Guard = Ignore | Reject(why: Failure) | Proceed

  /**
   * A document is considered only while the session is idle or waiting for a
   * PDF (silently ignored otherwise); then it must be declared as a PDF, and
   * then be no larger than `MaxFileSize`.
   */
  function DocumentGuard(state: State, mimeType: string, fileSize: int): (g: Guard)
    ensures g == Ignore <==> state != WaitingPdf && state != Idle
    ensures g == Reject(NotPdf) <==> (state == WaitingPdf || state == Idle) && mimeType != "application/pdf"
    ensures g == Reject(TooLarge) <==>
      (state == WaitingPdf || state == Idle) && mimeType == "application/pdf" && fileSize > MaxFileSize
    ensures g == Proceed <==>
      (state == WaitingPdf || state == Idle) && mimeType == "application/pdf" && fileSize <= MaxFileSize
  {
    if state != WaitingPdf && state != Idle then Ignore
    else if mimeType != "application/pdf" then Reject(NotPdf)
    else if fileSize > MaxFileSize then Reject(TooLarge)
    else Proceed
  }

  // ---------------------------------------------------------------------------
  // Commands

  /** `/start`: a clean session that waits for the first PDF. */
  method StartCommand(s: UserSession, fs: FileSystem) returns (reply: Reply)
    requires s.Valid()
    modifies s, fs
    ensures s.Valid()
    ensures old(s.OwnsFiles(fs)) ==> s.OwnsFiles(fs)
    ensures s.pdfs == [] && s.tempData == map[] && s.state == WaitingPdf
    ensures fs.files == old(fs.files) - PathSet(old(s.pdfs))
    ensures OthersUntouched(old(fs.files), fs.files, s.userId)
    ensures reply == Say(Welcome)
  {
    WellNamedDistinct(s.pdfs, s.userId);
    s.Clear(fs);
    s.state := WaitingPdf;
    reply := Say(Welcome);
  }

  /** `/cancel` and the cancel button: the session is cleared and left idle. */
  method CancelSession(s: UserSession, fs: FileSystem) returns (reply: Reply)
    requires s.Valid()
    modifies s, fs
    ensures s.Valid()
    ensures old(s.OwnsFiles(fs)) ==> s.OwnsFiles(fs)
    ensures s.pdfs == [] && s.tempData == map[] && s.state == Idle
    ensures fs.files == old(fs.files) - PathSet(old(s.pdfs))
    ensures OthersUntouched(old(fs.files), fs.files, s.userId)
    ensures reply == Say(Cancelled)
  {
    WellNamedDistinct(s.pdfs, s.userId);
    s.Clear(fs);
    reply := Say(Cancelled);
  }

  // ---------------------------------------------------------------------------
  // Documents

  /**
   * An incoming document. `downloadOk` is whether the download completed and
   * `pageCount` what the PDF library reads from the downloaded file. The file
   * is stored under the index the list has before the append.
   */
  method HandleDocument(s: UserSession, fs: FileSystem, mimeType: string, fileSize: int,
                        downloadOk: bool, pageCount: Option<nat>)
    returns (reply: Reply)
    requires s.Valid()
    modifies s, fs
    ensures s.Valid()
    ensures old(s.OwnsFiles(fs)) ==> s.OwnsFiles(fs)
    ensures OthersUntouched(old(fs.files), fs.files, s.userId)
    ensures DocumentGuard(old(s.state), mimeType, fileSize) == Ignore ==>
      unchanged(s) && fs.files == old(fs.files) && reply == Silent
    ensures DocumentGuard(old(s.state), mimeType, fileSize).Reject? ==>
      unchanged(s) && fs.files == old(fs.files)
      && reply == Error(DocumentGuard(old(s.state), mimeType, fileSize).why)
    ensures DocumentGuard(old(s.state), mimeType, fileSize) == Proceed && !downloadOk ==>
      unchanged(s) && fs.files == old(fs.files) && reply == Error(ProcessingError)
    ensures DocumentGuard(old(s.state), mimeType, fileSize) == Proceed && downloadOk && pageCount == None ==>
      unchanged(s) && fs.files == old(fs.files) - {Upload(s.userId, |old(s.pdfs)|)}
      && reply == Error(InvalidPdf)
    ensures DocumentGuard(old(s.state), mimeType, fileSize) == Proceed && downloadOk && pageCount.Some? ==>
      && s.pdfs == old(s.pdfs) + [Upload(s.userId, |old(s.pdfs)|)]
      && s.state == HasPdfs && s.tempData == old(s.tempData)
      && fs.files == old(fs.files) + {Upload(s.userId, |old(s.pdfs)|)}
      && reply == SayWithMenu(PdfReceived, MainMenu(|s.pdfs|))
  {
    var guard := DocumentGuard(s.state, mimeType, fileSize);
    if guard == Ignore {
      return Silent;
    } else if guard.Reject? {
      return Error(guard.why);
    }
    var path := Upload(s.userId, |s.pdfs|);
    if !downloadOk {
      return Error(ProcessingError);
    }
    fs.Write(path);
    if pageCount == None {
      var _ := fs.Remove(path);
      return Error(InvalidPdf);
    }
    s.AddPdf(path);
    s.state := HasPdfs;
    reply := SayWithMenu(PdfReceived, MainMenu(|s.pdfs|));
  }

  // ---------------------------------------------------------------------------
  // Callback buttons

  /** "Add another PDF": wait for a PDF, nothing else changes. */
  method AddPdfAction(s: UserSession) returns (reply: Reply)
    requires s.Valid()
    modifies s
    ensures s.Valid()
    ensures s.state == WaitingPdf && s.pdfs == old(s.pdfs) && s.tempData == old(s.tempData)
    ensures reply == SayWithMenu(AskForPdf, [Cancel])
  {
    s.state := WaitingPdf;
    reply := SayWithMenu(AskForPdf, [Cancel]);
  }

  /**
   * "Remove a page": needs a PDF whose page count the library can read
   * (`lastPageCount`, read from the last PDF); records that count and waits
   * for a page number.
   */
  method RemovePageAction(s: UserSession, lastPageCount: Option<nat>) returns (reply: Reply)
    requires s.Valid()
    modifies s
    ensures s.Valid()
    ensures old(s.pdfs) == [] ==> unchanged(s) && reply == Error(NoPdfs)
    ensures old(s.pdfs) != [] && lastPageCount == None ==> unchanged(s) && reply == Error(ReadError)
    ensures old(s.pdfs) != [] && lastPageCount.Some? ==>
      && s.state == WaitingPageNumber && s.pdfs == old(s.pdfs)
      && s.tempData == old(s.tempData)[PageCountKey := lastPageCount.value]
      && reply == Say(AskForPage(lastPageCount.value))
  {
    if s.pdfs == [] {
      return Error(NoPdfs);
    }
    if lastPageCount == None {
      return Error(ReadError);
    }
    s.state := WaitingPageNumber;
    s.tempData := s.tempData[PageCountKey := lastPageCount.value];
    reply := Say(AskForPage(lastPageCount.value));
  }

  /** Every input other than the output `out` exists in `files`. */
  predicate InputsPresent(inputs: seq<TempPath>, files: set<TempPath>, out: TempPath)
  {
    forall j :: 0 <= j < |inputs| ==> inputs[j] == out || inputs[j] in files
  }

  /** Input `k` is the first one, other than `out`, missing from `files`. */
  predicate FirstMissing(inputs: seq<TempPath>, files: set<TempPath>, out: TempPath, k: int)
  {
    && 0 <= k < |inputs|
    && inputs[k] != out && inputs[k] !in files
    && InputsPresent(inputs[..k], files, out)
  }

  /**
   * The directory once the merge has written `out` and deleted `inputs`,
   * leaving `out` itself in place.
   */
  function FilesAfterMerge(files: set<TempPath>, inputs: seq<TempPath>, out: TempPath): (r: set<TempPath>)
    ensures out in r
    ensures forall p :: p in inputs && p != out ==> p !in r
    ensures forall p :: p in files && p !in inputs ==> p in r
    ensures r <= files + {out}
  {
    (files + {out}) - (PathSet(inputs) - {out})
  }

  /**
   * "Merge all PDFs": needs two PDFs. When the library reports success
   * (`mergeOk`) the inputs are deleted and the list becomes the single merge
   * result; a failed merge changes nothing. Deleting an input that is already
   * gone raises out of the handler: the inputs before it are gone, the list is
   * unchanged. The library itself fails on a missing input, so that path is
   * reached only when an input vanishes after the merge has read it (another
   * event racing with this one). The output keeps one name per user, so it may coincide with the
   * first input (after an earlier merge); that input is not deleted.
   */
  method MergeAction(s: UserSession, fs: FileSystem, mergeOk: bool) returns (reply: Reply)
    requires s.Valid()
    modifies s, fs
    ensures s.Valid()
    ensures old(s.OwnsFiles(fs)) ==> s.OwnsFiles(fs)
    ensures OthersUntouched(old(fs.files), fs.files, s.userId)
    ensures s.state == old(s.state) && s.tempData == old(s.tempData)
    ensures |old(s.pdfs)| < 2 ==>
      unchanged(s) && fs.files == old(fs.files) && reply == Error(TooFewPdfs)
    ensures |old(s.pdfs)| >= 2 && !mergeOk ==>
      unchanged(s) && fs.files == old(fs.files) && reply == ErrorWithMenu(MergeError, MainMenu(|s.pdfs|))
    ensures |old(s.pdfs)| >= 2 && mergeOk && InputsPresent(old(s.pdfs), old(fs.files), Merged(s.userId)) ==>
      && s.pdfs == [Merged(s.userId)]
      && fs.files == FilesAfterMerge(old(fs.files), old(s.pdfs), Merged(s.userId))
      && reply == SayWithMenu(PdfsMerged, MainMenu(1))
    ensures |old(s.pdfs)| >= 2 && mergeOk && !InputsPresent(old(s.pdfs), old(fs.files), Merged(s.userId)) ==>
      && s.pdfs == old(s.pdfs) && reply == Aborted
      && (exists k :: FirstMissing(old(s.pdfs), old(fs.files), Merged(s.userId), k)
           && fs.files == FilesAfterMerge(old(fs.files), old(s.pdfs)[..k], Merged(s.userId)))
  {
    if |s.pdfs| < 2 {
      return Error(TooFewPdfs);
    }
    var out := Merged(s.userId);
    if !mergeOk {
      return ErrorWithMenu(MergeError, MainMenu(|s.pdfs|));
    }
    WellNamedDistinct(s.pdfs, s.userId);
    fs.Write(out);
    var i := 0;
    while i < |s.pdfs|
      invariant 0 <= i <= |s.pdfs|
      invariant InputsPresent(s.pdfs[..i], old(fs.files), out)
      invariant fs.files == FilesAfterMerge(old(fs.files), s.pdfs[..i], out)
      modifies fs
    {
      var p := s.pdfs[i];
      assert s.pdfs[..i + 1] == s.pdfs[..i] + [p];
      if p != out {
        assert p !in s.pdfs[..i];
        var removed := fs.Remove(p);
        if !removed {
          assert FirstMissing(s.pdfs, old(fs.files), out, i);
          return Aborted;
        }
      }
      i := i + 1;
    }
    assert s.pdfs[..i] == s.pdfs;
    s.pdfs := [out];
    reply := SayWithMenu(PdfsMerged, MainMenu(1));
  }

  /** "Reset all": a clean session that waits for a PDF. */
  method ResetAction(s: UserSession, fs: FileSystem) returns (reply: Reply)
    requires s.Valid()
    modifies s, fs
    ensures s.Valid()
    ensures old(s.OwnsFiles(fs)) ==> s.OwnsFiles(fs)
    ensures s.pdfs == [] && s.tempData == map[] && s.state == WaitingPdf
    ensures fs.files == old(fs.files) - PathSet(old(s.pdfs))
    ensures OthersUntouched(old(fs.files), fs.files, s.userId)
    ensures reply == Say(ResetDone)
  {
    WellNamedDistinct(s.pdfs, s.userId);
    s.Clear(fs);
    s.state := WaitingPdf;
    reply := Say(ResetDone);
  }

  /**
   * "Finish & download": sends the first PDF (`sendOk` is whether the
   * transport delivered it) and then clears the whole session; a failed send
   * leaves the session intact.
   */
  method FinishAction(s: UserSession, fs: FileSystem, sendOk: bool) returns (reply: Reply)
    requires s.Valid()
    modifies s, fs
    ensures s.Valid()
    ensures old(s.OwnsFiles(fs)) ==> s.OwnsFiles(fs)
    ensures OthersUntouched(old(fs.files), fs.files, s.userId)
    ensures old(s.pdfs) == [] ==> unchanged(s) && fs.files == old(fs.files) && reply == Error(NoPdfs)
    ensures old(s.pdfs) != [] && !sendOk ==>
      unchanged(s) && fs.files == old(fs.files) && reply == Error(SendError)
    ensures old(s.pdfs) != [] && sendOk ==>
      && s.pdfs == [] && s.tempData == map[] && s.state == Idle
      && fs.files == old(fs.files) - PathSet(old(s.pdfs))
      && reply == Say(Delivered(old(s.pdfs)[0]))
  {
    if s.pdfs == [] {
      return Error(NoPdfs);
    }
    var delivered := s.pdfs[0];
    if !sendOk {
      return Error(SendError);
    }
    WellNamedDistinct(s.pdfs, s.userId);
    s.Clear(fs);
    reply := Say(Delivered(delivered));
  }

  /** A callback button press; callback data that names no action changes nothing. */
  method HandleCallback(s: UserSession, fs: FileSystem, data: string,
                        lastPageCount: Option<nat>, mergeOk: bool, sendOk: bool)
    returns (reply: Reply)
    requires s.Valid()
    modifies s, fs
    ensures s.Valid()
    ensures old(s.OwnsFiles(fs)) ==> s.OwnsFiles(fs)
    ensures OthersUntouched(old(fs.files), fs.files, s.userId)
    ensures ParseAction(data) == None ==> unchanged(s) && fs.files == old(fs.files) && reply == Silent
    ensures ParseAction(data) == Some(AddPdf) ==>
      && s.state == WaitingPdf && s.pdfs == old(s.pdfs) && s.tempData == old(s.tempData)
      && fs.files == old(fs.files) && reply == SayWithMenu(AskForPdf, [Cancel])
    ensures ParseAction(data) == Some(RemovePage) ==>
      && fs.files == old(fs.files) && s.pdfs == old(s.pdfs)
      && (old(s.pdfs) == [] ==> unchanged(s) && reply == Error(NoPdfs))
      && (old(s.pdfs) != [] && lastPageCount == None ==> unchanged(s) && reply == Error(ReadError))
      && (old(s.pdfs) != [] && lastPageCount.Some? ==>
            && s.state == WaitingPageNumber
            && s.tempData == old(s.tempData)[PageCountKey := lastPageCount.value]
            && reply == Say(AskForPage(lastPageCount.value)))
    ensures ParseAction(data) == Some(MergePdfs) ==>
      && s.state == old(s.state) && s.tempData == old(s.tempData)
      && (|old(s.pdfs)| < 2 ==> unchanged(s) && fs.files == old(fs.files) && reply == Error(TooFewPdfs))
      && (|old(s.pdfs)| >= 2 && !mergeOk ==>
            unchanged(s) && fs.files == old(fs.files) && reply == ErrorWithMenu(MergeError, MainMenu(|s.pdfs|)))
      && (|old(s.pdfs)| >= 2 && mergeOk && InputsPresent(old(s.pdfs), old(fs.files), Merged(s.userId)) ==>
            && s.pdfs == [Merged(s.userId)]
            && fs.files == FilesAfterMerge(old(fs.files), old(s.pdfs), Merged(s.userId))
            && reply == SayWithMenu(PdfsMerged, MainMenu(1)))
      && (|old(s.pdfs)| >= 2 && mergeOk && !InputsPresent(old(s.pdfs), old(fs.files), Merged(s.userId)) ==>
            && s.pdfs == old(s.pdfs) && reply == Aborted
            && (exists k :: FirstMissing(old(s.pdfs), old(fs.files), Merged(s.userId), k)
                 && fs.files == FilesAfterMerge(old(fs.files), old(s.pdfs)[..k], Merged(s.userId))))
    ensures ParseAction(data) == Some(Reset) ==>
      && s.pdfs == [] && s.tempData == map[] && s.state == WaitingPdf
      && fs.files == old(fs.files) - PathSet(old(s.pdfs)) && reply == Say(ResetDone)
    ensures ParseAction(data) == Some(Finish) ==>
      && (old(s.pdfs) == [] ==> unchanged(s) && fs.files == old(fs.files) && reply == Error(NoPdfs))
      && (old(s.pdfs) != [] && !sendOk ==> unchanged(s) && fs.files == old(fs.files) && reply == Error(SendError))
      && (old(s.pdfs) != [] && sendOk ==>
            && s.pdfs == [] && s.tempData == map[] && s.state == Idle
            && fs.files == old(fs.files) - PathSet(old(s.pdfs))
            && reply == Say(Delivered(old(s.pdfs)[0])))
    ensures ParseAction(data) == Some(Cancel) ==>
      && s.pdfs == [] && s.tempData == map[] && s.state == Idle
      && fs.files == old(fs.files) - PathSet(old(s.pdfs)) && reply == Say(Cancelled)
  {
    match ParseAction(data)
    case None => reply := Silent;
    case Some(AddPdf) => reply := AddPdfAction(s);
    case Some(RemovePage) => reply := RemovePageAction(s, lastPageCount);
    case Some(MergePdfs) => reply := MergeAction(s, fs, mergeOk);
    case Some(Reset) => reply := ResetAction(s, fs);
    case Some(Finish) => reply := FinishAction(s, fs, sendOk);
    case Some(Cancel) => reply := CancelSession(s, fs);
  }

  // ---------------------------------------------------------------------------
  // Text

  /**
   * Typed text. Outside `WaitingPageNumber` it is ignored; otherwise it must
   * name a page of the last PDF, which the library (`removeOk`) then writes
   * without that page to modified_<user>_<index>.pdf; the input file is
   * deleted and the list's last entry replaced. Any failure leaves the list
   * and the state as they were; a failed deletion of the input leaves the new
   * file behind.
   */
  method HandleText(s: UserSession, fs: FileSystem, text: string, removeOk: bool) returns (reply: Reply)
    requires s.Valid()
    modifies s, fs
    ensures s.Valid()
    ensures old(s.OwnsFiles(fs)) && (old(s.pdfs) == [] || old(s.pdfs)[|old(s.pdfs)| - 1] != Modified(s.userId, |old(s.pdfs)| - 1)) ==>
      s.OwnsFiles(fs)
    ensures OthersUntouched(old(fs.files), fs.files, s.userId)
    ensures s.tempData == old(s.tempData)
    ensures old(s.state) != WaitingPageNumber ==>
      unchanged(s) && fs.files == old(fs.files) && reply == Silent
    ensures old(s.state) == WaitingPageNumber && !CheckPageNumber(text, RecordedPageCount(old(s.tempData))).Page? ==>
      unchanged(s) && fs.files == old(fs.files)
      && reply == (if IsDigitString(text) then Error(PageOutOfRange(RecordedPageCount(old(s.tempData))))
                   else Error(BadNumber))
    ensures old(s.state) == WaitingPageNumber && CheckPageNumber(text, RecordedPageCount(old(s.tempData))).Page? ==>
      var last := |old(s.pdfs)| - 1;
      var input := old(s.pdfs)[last];
      var out := Modified(s.userId, last);
      if !removeOk then
        unchanged(s) && fs.files == old(fs.files) && reply == Error(RemovalError)
      else if input != out && input !in old(fs.files) then
        unchanged(s) && fs.files == old(fs.files) + {out} && reply == Error(RemovalError)
      else
        && s.pdfs == old(s.pdfs)[last := out] && s.state == HasPdfs
        && fs.files == (old(fs.files) + {out}) - {input}
        && reply == SayWithMenu(PageRemoved, MainMenu(|s.pdfs|))
  {
    if s.state != WaitingPageNumber {
      return Silent;
    }
    var pageCount := RecordedPageCount(s.tempData);
    match CheckPageNumber(text, pageCount)
    case NotANumber =>
      reply := Error(BadNumber);
    case OutOfRange =>
      reply := Error(PageOutOfRange(pageCount));
    case Page(_) =>
      var last := |s.pdfs| - 1;
      var input := s.pdfs[last];
      var out := Modified(s.userId, last);
      if !removeOk {
        return Error(RemovalError);
      }
      WellNamedDistinct(s.pdfs, s.userId);
      fs.Write(out);
      var removed := fs.Remove(input);
      if !removed {
        return Error(RemovalError);
      }
      s.pdfs := s.pdfs[last := out];
      s.state := HasPdfs;
      reply := SayWithMenu(PageRemoved, MainMenu(|s.pdfs|));
  }
}
