/**
 * The desktop shell's `save-screenshot` handler as a decision over its inputs:
 * the image data URL from the renderer, what the save dialog returned, and what
 * the file write did. The dialog and the write themselves are not modelled.
 */
module SaveBridge {
  import opened Wrappers

  const PngPrefix := "data:image/png;base64,"
  const JpgPrefix := "data:image/jpg;base64,"
  const JpegPrefix := "data:image/jpeg;base64,"

  /** What `dialog.showSaveDialog` produced: a result whose `filePath` may be missing, or an exception. */
  datatype DialogOutcome = DialogReturned(filePath: Option<string>) | DialogThrew(message: string)

  /** What `fs.writeFileSync` did. */
  datatype WriteOutcome = WriteDone | WriteThrew(message: string)

  /** The handler's reply: `{success: true, filePath}`, `{success: false, message}` or `{success: false, error}`. */
  datatype SaveResponse = Saved(filePath: string) | Declined(message: string) | SaveFailed(error: string)

  /** The write the handler asks for: base64 text to decode into the file at `path`. */
  datatype FileWrite = FileWrite(path: string, base64Data: string)

  datatype SaveStep = SaveStep(write: Option<FileWrite>, response: SaveResponse)

  /**
   * `imageData.replace(/^data:image\/(png|jpg|jpeg);base64,/, '')`: a leading data-URL
   * header of one of the three image types is removed once; anything else is
   * returned as it is.
   */
  function StripDataUrlPrefix(data: string): (r: string)
    ensures |r| <= |data| && r == data[|data| - |r|..]
    ensures PngPrefix <= data ==> r == data[|PngPrefix|..]
    ensures JpgPrefix <= data ==> r == data[|JpgPrefix|..]
    ensures JpegPrefix <= data ==> r == data[|JpegPrefix|..]
    ensures !(PngPrefix <= data) && !(JpgPrefix <= data) && !(JpegPrefix <= data) ==> r == data
  {
    PrefixesExclusive(data);
    if PngPrefix <= data then data[|PngPrefix|..]
    else if JpgPrefix <= data then data[|JpgPrefix|..]
    else if JpegPrefix <= data then data[|JpegPrefix|..]
    else data
  }

  /** `!filePath`: a missing or empty path means the user cancelled. */
  predicate NoPathChosen(filePath: Option<string>) {
    filePath.None? || filePath.value == ""
  }

  /**
   * The handler: an exception from the dialog or the write becomes an error reply;
   * no chosen path is a cancellation without any write; otherwise the stripped
   * payload is written to the chosen path and the path is reported back.
   */
  function SaveScreenshot(imageData: string, dialog: DialogOutcome, written: WriteOutcome): (r: SaveStep)
    ensures dialog.DialogThrew? ==> r == SaveStep(None, SaveFailed(dialog.message))
    ensures dialog.DialogReturned? && NoPathChosen(dialog.filePath) ==>
              r == SaveStep(None, Declined("Save cancelled"))
    ensures dialog.DialogReturned? && !NoPathChosen(dialog.filePath) ==>
              r.write == Some(FileWrite(dialog.filePath.value, StripDataUrlPrefix(imageData)))
              && (written.WriteDone? ==> r.response == Saved(dialog.filePath.value))
              && (written.WriteThrew? ==> r.response == SaveFailed(written.message))
  {
    match dialog
    case DialogThrew(message) => SaveStep(None, SaveFailed(message))
    case DialogReturned(filePath) =>
      if NoPathChosen(filePath) then SaveStep(None, Declined("Save cancelled"))
      else
        var write := FileWrite(filePath.value, StripDataUrlPrefix(imageData));
        match written
        case WriteDone => SaveStep(Some(write), Saved(filePath.value))
        case WriteThrew(message) => SaveStep(Some(write), SaveFailed(message))
  }

  /** At most one of the three headers can start a string, so which one is tried first does not matter. */
  lemma PrefixesExclusive(data: string)
    ensures !(PngPrefix <= data && JpgPrefix <= data)
    ensures !(PngPrefix <= data && JpegPrefix <= data)
    ensures !(JpgPrefix <= data && JpegPrefix <= data)
  {
    assert PngPrefix <= data ==> data[11] == PngPrefix[11] == 'p';
    assert JpgPrefix <= data ==> data[11] == JpgPrefix[11] == 'j' && data[13] == JpgPrefix[13] == 'g';
    assert JpegPrefix <= data ==> data[11] == JpegPrefix[11] == 'j' && data[13] == JpegPrefix[13] == 'e';
  }

  /** The header is removed once: a repeated header keeps its second copy. */
  lemma StripRemovesOnce(rest: string)
    ensures StripDataUrlPrefix(PngPrefix + PngPrefix + rest) == PngPrefix + rest
  {
  }

  /** The header is anchored at the start: one that appears later stays. */
  lemma StripIsAnchored(rest: string)
    ensures StripDataUrlPrefix("x" + JpegPrefix + rest) == "x" + JpegPrefix + rest
  {
    var s := "x" + JpegPrefix + rest;
    assert s[0] == 'x';
  }

  /** Other image types are not stripped. */
  lemma StripKeepsOtherTypes(rest: string)
    ensures StripDataUrlPrefix("data:image/gif;base64," + rest) == "data:image/gif;base64," + rest
  {
    var s := "data:image/gif;base64," + rest;
    assert s[11] == 'g';
  }

  /** A success reply is given exactly when a write was requested and completed, and it names the written path. */
  lemma SavedOnlyAfterWrite(imageData: string, dialog: DialogOutcome, written: WriteOutcome)
    ensures var r := SaveScreenshot(imageData, dialog, written);
            r.response.Saved? <==> r.write.Some? && written.WriteDone?
    ensures var r := SaveScreenshot(imageData, dialog, written);
            r.response.Saved? ==> r.write.value.path == r.response.filePath != ""
  {
  }
}
