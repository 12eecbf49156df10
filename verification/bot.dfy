/**
 * Event dispatch: every event is handled for the session of the user who
 * sent it, looked up (or created) in the session store first. Commands are
 * matched before plain text, so `/start` and `/cancel` never reach the text
 * handler. Events are handled one at a time.
 */
module Bot {
  import opened Common
  import opened PageInput
  import opened TempFiles
  import opened Menu
  import opened Sessions
  import opened Handlers

  /**
   * An incoming event, with the outcomes of the external calls its handler
   * makes: whether a download, merge, page removal or send succeeded, and
   * what page count the PDF library read.
   */
  datatype Event =
    | StartCmd(user: int)
    | CancelCmd(user: int)
    | Document(user: int, mimeType: string, fileSize: int, downloadOk: bool, pageCount: Option<nat>)
    | Callback(user: int, data: string, lastPageCount: Option<nat>, mergeOk: bool, sendOk: bool)
    | Text(user: int, text: string, removeOk: bool)

  /** Runs the handler for `ev` on the sender's session `s`. */
  method HandleEvent(s: UserSession, fs: FileSystem, ev: Event) returns (reply: Reply)
    requires s.Valid() && s.userId == ev.user
    modifies s, fs
    ensures s.Valid()
    ensures OthersUntouched(old(fs.files), fs.files, ev.user)
    ensures ev.StartCmd? ==>
      && s.pdfs == [] && s.tempData == map[] && s.state == WaitingPdf
      && fs.files == old(fs.files) - PathSet(old(s.pdfs)) && reply == Say(Welcome)
    ensures ev.CancelCmd? ==>
      && s.pdfs == [] && s.tempData == map[] && s.state == Idle
      && fs.files == old(fs.files) - PathSet(old(s.pdfs)) && reply == Say(Cancelled)
    ensures ev.Document? && DocumentGuard(old(s.state), ev.mimeType, ev.fileSize) != Proceed ==>
      unchanged(s) && fs.files == old(fs.files)
    ensures ev.Document? && DocumentGuard(old(s.state), ev.mimeType, ev.fileSize) == Proceed ==>
      if ev.downloadOk && ev.pageCount.Some? then
        && s.pdfs == old(s.pdfs) + [Upload(ev.user, |old(s.pdfs)|)] && s.state == HasPdfs
        && fs.files == old(fs.files) + {Upload(ev.user, |old(s.pdfs)|)}
      else
        unchanged(s) && fs.files <= old(fs.files)
    ensures ev.Callback? && ParseAction(ev.data) == None ==> unchanged(s) && fs.files == old(fs.files)
    ensures ev.Callback? && ParseAction(ev.data) == Some(AddPdf) ==>
      s.state == WaitingPdf && s.pdfs == old(s.pdfs) && fs.files == old(fs.files)
    ensures ev.Callback? && ParseAction(ev.data) in {Some(Reset), Some(Cancel)} ==>
      && s.pdfs == [] && s.tempData == map[] && fs.files == old(fs.files) - PathSet(old(s.pdfs))
      && s.state == (if ParseAction(ev.data) == Some(Reset) then WaitingPdf else Idle)
    ensures ev.Callback? && ParseAction(ev.data) == Some(MergePdfs) && (|old(s.pdfs)| < 2 || !ev.mergeOk) ==>
      unchanged(s) && fs.files == old(fs.files)
    ensures ev.Callback? && ParseAction(ev.data) == Some(MergePdfs) && |old(s.pdfs)| >= 2 && ev.mergeOk
            && InputsPresent(old(s.pdfs), old(fs.files), Merged(ev.user)) ==>
      s.pdfs == [Merged(ev.user)] && fs.files == FilesAfterMerge(old(fs.files), old(s.pdfs), Merged(ev.user))
    ensures ev.Callback? && ParseAction(ev.data) == Some(RemovePage) ==>
      && s.pdfs == old(s.pdfs) && fs.files == old(fs.files)
      && (old(s.pdfs) != [] && ev.lastPageCount.Some? ==>
            s.state == WaitingPageNumber && s.tempData == old(s.tempData)[PageCountKey := ev.lastPageCount.value])
      && (old(s.pdfs) == [] || ev.lastPageCount == None ==> unchanged(s))
    ensures ev.Callback? && ParseAction(ev.data) == Some(Finish) ==>
      if old(s.pdfs) != [] && ev.sendOk then
        && s.pdfs == [] && s.state == Idle && fs.files == old(fs.files) - PathSet(old(s.pdfs))
        && reply == Say(Delivered(old(s.pdfs)[0]))
      else
        unchanged(s) && fs.files == old(fs.files)
    ensures ev.Text? && old(s.state) != WaitingPageNumber ==>
      unchanged(s) && fs.files == old(fs.files) && reply == Silent
    ensures ev.Text? && old(s.state) == WaitingPageNumber
            && !CheckPageNumber(ev.text, RecordedPageCount(old(s.tempData))).Page? ==>
      unchanged(s) && fs.files == old(fs.files)
    ensures ev.Text? && old(s.state) == WaitingPageNumber
            && CheckPageNumber(ev.text, RecordedPageCount(old(s.tempData))).Page? && ev.removeOk
            && old(s.pdfs)[|old(s.pdfs)| - 1] in old(fs.files) ==>
      && s.pdfs == old(s.pdfs)[|old(s.pdfs)| - 1 := Modified(ev.user, |old(s.pdfs)| - 1)]
      && s.state == HasPdfs
      && fs.files == (old(fs.files) + {Modified(ev.user, |old(s.pdfs)| - 1)}) - {old(s.pdfs)[|old(s.pdfs)| - 1]}
    ensures ev.Text? && old(s.state) == WaitingPageNumber
            && CheckPageNumber(ev.text, RecordedPageCount(old(s.tempData))).Page? && !ev.removeOk ==>
      unchanged(s) && fs.files == old(fs.files)
    ensures ev.Text? && old(s.state) == WaitingPageNumber
            && CheckPageNumber(ev.text, RecordedPageCount(old(s.tempData))).Page? && ev.removeOk
            && old(s.pdfs)[|old(s.pdfs)| - 1] !in old(fs.files)
            && old(s.pdfs)[|old(s.pdfs)| - 1] != Modified(ev.user, |old(s.pdfs)| - 1) ==>
      unchanged(s) && fs.files == old(fs.files) + {Modified(ev.user, |old(s.pdfs)| - 1)}
    ensures ev.Text? ==> s.tempData == old(s.tempData)
  {
    match ev
    case StartCmd(_) => reply := StartCommand(s, fs);
    case CancelCmd(_) => reply := CancelSession(s, fs);
    case Document(_, mimeType, fileSize, downloadOk, pageCount) =>
      reply := HandleDocument(s, fs, mimeType, fileSize, downloadOk, pageCount);
    case Callback(_, data, lastPageCount, mergeOk, sendOk) =>
      reply := HandleCallback(s, fs, data, lastPageCount, mergeOk, sendOk);
    case Text(_, text, removeOk) =>
      reply := HandleText(s, fs, text, removeOk);
  }

  /**
   * Handles one event. Only the sender's session and the sender's files can
   * change; a first event from a user files a new session under that user's
   * id, and no session is ever replaced or removed.
   */
  method Dispatch(store: SessionStore, fs: FileSystem, ev: Event) returns (reply: Reply)
    requires store.Valid()
    modifies store, fs, store.sessions.Values
    ensures store.Valid()
    ensures store.sessions.Keys == old(store.sessions.Keys) + {ev.user}
    ensures forall u :: u in old(store.sessions) ==> store.sessions[u] == old(store.sessions[u])
    ensures forall u :: u in old(store.sessions) && u != ev.user ==> unchanged(store.sessions[u])
    ensures OthersUntouched(old(fs.files), fs.files, ev.user)
  {
    var s := store.GetSession(ev.user);
    reply := HandleEvent(s, fs, ev);
  }
}
