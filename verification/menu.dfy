/**
 * The callback buttons of the bot and the main menu built from the number of
 * PDFs a session holds.
 */
module Menu {
  import opened Common

  /** The actions a button can carry. */
  datatype Action = AddPdf | RemovePage | MergePdfs | Reset | Finish | Cancel

  /** The callback data string each action is sent with. */
  function Tag(a: Action): string
  {
    match a
    case AddPdf => "add_pdf"
    case RemovePage => "remove_page"
    case MergePdfs => "merge_pdfs"
    case Reset => "reset"
    case Finish => "finish"
    case Cancel => "cancel"
  }

  /** The action whose tag is `data`, if any; any other callback data is ignored by the bot. */
  function ParseAction(data: string): (r: Option<Action>)
    ensures r.Some? ==> Tag(r.value) == data
  {
    if data == "add_pdf" then Some(AddPdf)
    else if data == "remove_page" then Some(RemovePage)
    else if data == "merge_pdfs" then Some(MergePdfs)
    else if data == "reset" then Some(Reset)
    else if data == "finish" then Some(Finish)
    else if data == "cancel" then Some(Cancel)
    else None
  }

  /** Every button the bot sends is recognised again as the same action. */
  lemma ParseTag(a: Action)
    ensures ParseAction(Tag(a)) == Some(a)
  {
  }

  /**
   * The main menu for a session holding `pdfCount` PDFs, top to bottom. It
   * always opens with "add another PDF" and always closes with "cancel"; a
   * single PDF may have a page removed or be downloaded, several may have the
   * last one's page removed, be merged or be reset.
   */
  function MainMenu(pdfCount: int): (m: seq<Action>)
    ensures |m| >= 2 && m[0] == AddPdf && m[|m| - 1] == Cancel
    ensures pdfCount == 1 ==> m[1..|m| - 1] == [RemovePage, Finish]
    ensures pdfCount > 1 ==> m[1..|m| - 1] == [RemovePage, MergePdfs, Reset]
    ensures pdfCount <= 0 ==> m == [AddPdf, Cancel]
    ensures forall i, j :: 0 <= i < j < |m| ==> m[i] != m[j]
  {
    var middle :=
      if pdfCount == 1 then [RemovePage, Finish]
      else if pdfCount > 1 then [RemovePage, MergePdfs, Reset]
      else [];
    [AddPdf] + middle + [Cancel]
  }

  /**
   * The menu offers an action only when the session's PDF count passes that
   * action's own guard: removing a page and finishing need a PDF, merging
   * needs two.
   */
  lemma MenuMatchesGuards(pdfCount: int)
    ensures AddPdf in MainMenu(pdfCount) && Cancel in MainMenu(pdfCount)
    ensures RemovePage in MainMenu(pdfCount) <==> pdfCount >= 1
    ensures Finish in MainMenu(pdfCount) <==> pdfCount == 1
    ensures MergePdfs in MainMenu(pdfCount) <==> pdfCount >= 2
    ensures Reset in MainMenu(pdfCount) <==> pdfCount >= 2
  {
  }
}
