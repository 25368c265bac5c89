/** The document summary page: the upload rules, and the page state that the
    summary, audio-summary and dialogue handlers update around their service
    calls. Each handler is split at its one `await`: what it does before the
    call, and what it does once the call has returned or failed (the
    service's answer is a parameter, `None` for a failure). */
module SummarizeDocument {
  import opened Wrappers
  import opened JsBuiltins

  const MaxFileSize: nat := 5 * 1024 * 1024
  const AcceptedFileTypes: seq<string> := ["application/pdf", "text/plain"]

  const FileRequired: string := "Un fichier est requis."
  const FileTooLarge: string := "La taille maximum est de 5MB."
  const WrongFileType: string := "Uniquement les fichiers .pdf et .txt sont acceptés."

  /** A chosen file: its name, its size in bytes and its MIME type. */
  datatype UploadedFile = UploadedFile(name: string, size: nat, fileType: string)

  // ----- The upload rules -----

  /** `files?.[0]`: the first file, if a list was chosen and is not empty. */
  function FirstFile(files: Option<seq<UploadedFile>>): Option<UploadedFile> {
    if files.Some? && |files.value| > 0 then Some(files.value[0]) else None
  }

  /** `files?.length === 1`. */
  predicate OneFile(files: Option<seq<UploadedFile>>) {
    files.Some? && |files.value| == 1
  }

  /** `files?.[0]?.size <= MAX_FILE_SIZE`: false when there is no first file. */
  predicate SizeAllowed(files: Option<seq<UploadedFile>>) {
    FirstFile(files).Some? && FirstFile(files).value.size <= MaxFileSize
  }

  /** `ACCEPTED_FILE_TYPES.includes(files?.[0]?.type)`: false when there is no
      first file. */
  predicate TypeAllowed(files: Option<seq<UploadedFile>>) {
    FirstFile(files).Some? && FirstFile(files).value.fileType in AcceptedFileTypes
  }

  /** The three refinements are all checked; the message of each that fails,
      in order. */
  function UploadIssues(files: Option<seq<UploadedFile>>): (issues: seq<string>)
    ensures |issues| <= 3
    ensures FileRequired in issues <==> !OneFile(files)
    ensures FileTooLarge in issues <==> !SizeAllowed(files)
    ensures WrongFileType in issues <==> !TypeAllowed(files)
  {
    (if OneFile(files) then [] else [FileRequired])
    + (if SizeAllowed(files) then [] else [FileTooLarge])
    + (if TypeAllowed(files) then [] else [WrongFileType])
  }

  /** The message the form shows under the field: the first issue. */
  function ShownIssue(files: Option<seq<UploadedFile>>): (m: Option<string>)
    ensures m.None? <==> UploadIssues(files) == []
    ensures m.Some? ==> m.value == UploadIssues(files)[0]
  {
    var issues := UploadIssues(files);
    if issues == [] then None else Some(issues[0])
  }

  /** An upload is accepted exactly when it is one file of at most 5 MiB
      (5242880 bytes) whose type is exactly `application/pdf` or `text/plain`. */
  lemma UploadAccepted(files: Option<seq<UploadedFile>>)
    ensures UploadIssues(files) == [] <==>
      && files.Some? && |files.value| == 1
      && files.value[0].size <= 5242880
      && (files.value[0].fileType == "application/pdf" || files.value[0].fileType == "text/plain")
  {
  }

  /** With nothing chosen all three refinements fail, and the form shows the
      first of them. */
  lemma NothingChosen(files: Option<seq<UploadedFile>>)
    requires files.None? || files.value == []
    ensures UploadIssues(files) == [FileRequired, FileTooLarge, WrongFileType]
    ensures ShownIssue(files) == Some(FileRequired)
  {
  }

  /** The size limit is inclusive, and the type test is exact: another letter
      case or another type is refused. */
  lemma UploadExamples(name: string)
    ensures UploadIssues(Some([UploadedFile(name, 5242880, "application/pdf")])) == []
    ensures ShownIssue(Some([UploadedFile(name, 5242881, "application/pdf")])) == Some(FileTooLarge)
    ensures ShownIssue(Some([UploadedFile(name, 10, "application/PDF")])) == Some(WrongFileType)
    ensures ShownIssue(Some([UploadedFile(name, 10, "image/png")])) == Some(WrongFileType)
    ensures ShownIssue(Some([UploadedFile(name, 10, "text/plain"), UploadedFile(name, 10, "text/plain")])) == Some(FileRequired)
  {
    assert "application/PDF" != "application/pdf" by { assert "application/PDF"[12] != "application/pdf"[12]; }
  }

  // ----- The page state -----

  class SummarizePage {
    var isLoading: bool
    var isAudioLoading: bool
    var isDialogueLoading: bool
    var summary: string
    var audioSummary: Option<string>
    var audioDialogue: Option<string>
    var fileName: string

    constructor ()
      ensures !isLoading && !isAudioLoading && !isDialogueLoading
      ensures summary == [] && audioSummary.None? && audioDialogue.None? && fileName == []
    {
      isLoading, isAudioLoading, isDialogueLoading := false, false, false;
      summary, audioSummary, audioDialogue, fileName := [], None, None, [];
    }

    /** `onSubmit` before the call: loading, and every earlier result cleared. */
    method BeginSubmit()
      modifies this
      ensures isLoading && summary == [] && audioSummary.None? && audioDialogue.None?
      ensures isAudioLoading == old(isAudioLoading) && isDialogueLoading == old(isDialogueLoading)
      ensures fileName == old(fileName)
    {
      isLoading := true;
      summary := [];
      audioSummary := None;
      audioDialogue := None;
    }

    /** `onSubmit` after the call: the summary and the file name on success,
        nothing new on failure; loading ends either way. */
    method FinishSubmit(file: UploadedFile, outcome: Option<string>)
      modifies this
      ensures !isLoading
      ensures outcome.Some? ==> summary == outcome.value && fileName == file.name
      ensures outcome.None? ==> summary == old(summary) && fileName == old(fileName)
      ensures audioSummary == old(audioSummary) && audioDialogue == old(audioDialogue)
      ensures isAudioLoading == old(isAudioLoading) && isDialogueLoading == old(isDialogueLoading)
    {
      if outcome.Some? {
        summary := outcome.value;
        fileName := file.name;
      }
      isLoading := false;
    }

    /** A whole submission. A refused upload never reaches the handler and
        changes nothing; an accepted one ends with loading off, no stale
        audio, and the new summary or an empty one. */
    method Submit(files: Option<seq<UploadedFile>>, outcome: Option<string>) returns (issues: seq<string>)
      modifies this
      ensures issues == UploadIssues(files)
      ensures issues != [] ==>
        && isLoading == old(isLoading) && summary == old(summary) && fileName == old(fileName)
        && audioSummary == old(audioSummary) && audioDialogue == old(audioDialogue)
        && isAudioLoading == old(isAudioLoading) && isDialogueLoading == old(isDialogueLoading)
      ensures issues == [] ==>
        && !isLoading && audioSummary.None? && audioDialogue.None?
        && summary == (if outcome.Some? then outcome.value else [])
        && fileName == (if outcome.Some? then files.value[0].name else old(fileName))
        && isAudioLoading == old(isAudioLoading) && isDialogueLoading == old(isDialogueLoading)
    {
      issues := UploadIssues(files);
      if issues == [] {
        var file := files.value[0];
        BeginSubmit();
        FinishSubmit(file, outcome);
      }
    }

    /** `handleGenerateAudio` before the call: nothing at all on a blank
        summary; otherwise loading, with the previous audio cleared. */
    method BeginAudio() returns (started: bool)
      modifies this
      ensures started <==> !IsBlank(old(summary))
      ensures started ==> isAudioLoading && audioSummary.None?
      ensures !started ==> isAudioLoading == old(isAudioLoading) && audioSummary == old(audioSummary)
      ensures isLoading == old(isLoading) && isDialogueLoading == old(isDialogueLoading)
      ensures summary == old(summary) && audioDialogue == old(audioDialogue) && fileName == old(fileName)
    {
      if IsBlank(summary) {
        return false;
      }
      isAudioLoading := true;
      audioSummary := None;
      return true;
    }

    /** `handleGenerateAudio` after the call: the audio on success; loading
        ends either way. */
    method FinishAudio(outcome: Option<string>)
      modifies this
      ensures !isAudioLoading
      ensures audioSummary == (if outcome.Some? then outcome else old(audioSummary))
      ensures isLoading == old(isLoading) && isDialogueLoading == old(isDialogueLoading)
      ensures summary == old(summary) && audioDialogue == old(audioDialogue) && fileName == old(fileName)
    {
      if outcome.Some? {
        audioSummary := outcome;
      }
      isAudioLoading := false;
    }

    /** A whole audio request: a blank summary changes nothing; otherwise the
        audio is exactly what the service returned, none after a failure, and
        loading is off. */
    method GenerateAudio(outcome: Option<string>)
      modifies this
      ensures IsBlank(old(summary)) ==> isAudioLoading == old(isAudioLoading) && audioSummary == old(audioSummary)
      ensures !IsBlank(old(summary)) ==> !isAudioLoading && audioSummary == outcome
      ensures isLoading == old(isLoading) && isDialogueLoading == old(isDialogueLoading)
      ensures summary == old(summary) && audioDialogue == old(audioDialogue) && fileName == old(fileName)
    {
      var started := BeginAudio();
      if started {
        FinishAudio(outcome);
      }
    }

    /** `handleGenerateDialogue` before the call, as for the audio summary. */
    method BeginDialogue() returns (started: bool)
      modifies this
      ensures started <==> !IsBlank(old(summary))
      ensures started ==> isDialogueLoading && audioDialogue.None?
      ensures !started ==> isDialogueLoading == old(isDialogueLoading) && audioDialogue == old(audioDialogue)
      ensures isLoading == old(isLoading) && isAudioLoading == old(isAudioLoading)
      ensures summary == old(summary) && audioSummary == old(audioSummary) && fileName == old(fileName)
    {
      if IsBlank(summary) {
        return false;
      }
      isDialogueLoading := true;
      audioDialogue := None;
      return true;
    }

    /** `handleGenerateDialogue` after the call. */
    method FinishDialogue(outcome: Option<string>)
      modifies this
      ensures !isDialogueLoading
      ensures audioDialogue == (if outcome.Some? then outcome else old(audioDialogue))
      ensures isLoading == old(isLoading) && isAudioLoading == old(isAudioLoading)
      ensures summary == old(summary) && audioSummary == old(audioSummary) && fileName == old(fileName)
    {
      if outcome.Some? {
        audioDialogue := outcome;
      }
      isDialogueLoading := false;
    }

    /** A whole dialogue request. */
    method GenerateDialogue(outcome: Option<string>)
      modifies this
      ensures IsBlank(old(summary)) ==> isDialogueLoading == old(isDialogueLoading) && audioDialogue == old(audioDialogue)
      ensures !IsBlank(old(summary)) ==> !isDialogueLoading && audioDialogue == outcome
      ensures isLoading == old(isLoading) && isAudioLoading == old(isAudioLoading)
      ensures summary == old(summary) && audioSummary == old(audioSummary) && fileName == old(fileName)
    {
      var started := BeginDialogue();
      if started {
        FinishDialogue(outcome);
      }
    }
  }
}
