/** The video-script page: its form schema with the default values, and the
    two pieces of page state its submit handler updates around the service
    call (the script service's answer is a parameter, `None` for a failure). */
module GenerateScript {
  import opened Wrappers
  import opened JsBuiltins

  /** The form after the number field has been coerced to a number. */
  datatype ScriptForm = ScriptForm(topic: string, targetAudience: string, lessonLengthMinutes: JsNumber)

  const TopicMessage: string := "Le sujet doit contenir au moins 10 caractères."
  // Written in two parts: the verifier reads the characters of a short literal.
  const AudienceMessage: string := "Le public cible doit contenir " + "au moins 5 caractères."

  const DefaultForm: ScriptForm := ScriptForm("", "Élèves de primaire", Num(5.0))

  predicate ValidTopic(topic: string) {
    Utf16Length(topic) >= 10
  }

  predicate ValidAudience(audience: string) {
    Utf16Length(audience) >= 5
  }

  /** `int().min(1).max(60)`: a whole number of minutes from 1 to 60. */
  predicate ValidLength(minutes: JsNumber) {
    IsInteger(minutes) && 1.0 <= minutes.value <= 60.0
  }

  predicate ValidScriptForm(f: ScriptForm) {
    ValidTopic(f.topic) && ValidAudience(f.targetAudience) && ValidLength(f.lessonLengthMinutes)
  }

  /** The messages the form shows for the two text fields, one per failed
      rule (zod checks every field). The length rule's messages are zod's own
      and are not kept; its failure shows as `ValidLength` being false. */
  function ScriptIssues(f: ScriptForm): (issues: seq<string>)
    ensures |issues| <= 2
    ensures TopicMessage in issues <==> !ValidTopic(f.topic)
    ensures AudienceMessage in issues <==> !ValidAudience(f.targetAudience)
    ensures ValidScriptForm(f) <==> issues == [] && ValidLength(f.lessonLengthMinutes)
  {
    assert TopicMessage[3] != AudienceMessage[3];
    (if ValidTopic(f.topic) then [] else [TopicMessage])
    + (if ValidAudience(f.targetAudience) then [] else [AudienceMessage])
  }

  /** The defaults for the audience and the length pass their rules; the empty
      default topic does not, so the untouched form cannot be submitted. */
  lemma DefaultsExamples()
    ensures ValidAudience(DefaultForm.targetAudience) && ValidLength(DefaultForm.lessonLengthMinutes)
    ensures !ValidTopic(DefaultForm.topic) && !ValidScriptForm(DefaultForm)
  {
    DefaultAudience();
    DefaultLength();
  }

  lemma DefaultAudience()
    ensures ValidAudience(DefaultForm.targetAudience)
  {
    assert |DefaultForm.targetAudience| == 18;
  }

  lemma DefaultLength()
    ensures ValidLength(DefaultForm.lessonLengthMinutes)
  {
    assert (5.0).Floor == 5;
  }

  /** Typing a topic into the untouched form is all it takes: the form is then
      valid exactly when the topic is. */
  lemma TopicCompletesDefaults(topic: string)
    ensures ValidScriptForm(DefaultForm.(topic := topic)) <==> ValidTopic(topic)
  {
    DefaultsExamples();
  }

  /** Topics of 0, 9, 10 and 60 characters, and lengths of 0, 1, 60, 61 and
      two and a half minutes. */
  lemma BoundaryExamples(topic: string)
    requires forall i | 0 <= i < |topic| :: topic[i] as int <= 0xFFFF
    ensures |topic| == 0 ==> !ValidTopic(topic)
    ensures |topic| == 9 ==> !ValidTopic(topic)
    ensures |topic| == 10 ==> ValidTopic(topic)
    ensures |topic| == 60 ==> ValidTopic(topic)
    ensures !ValidLength(Num(0.0)) && !ValidLength(Num(61.0)) && !ValidLength(Num(2.5)) && !ValidLength(NaN)
    ensures ValidLength(Num(1.0)) && ValidLength(Num(60.0))
  {
    Utf16LengthBmp(topic);
    assert (0.0).Floor == 0 && (61.0).Floor == 61 && (2.5).Floor == 2;
    assert (1.0).Floor == 1 && (60.0).Floor == 60;
  }

  class ScriptPage {
    var isLoading: bool
    var scriptContent: string

    constructor ()
      ensures !isLoading && scriptContent == []
    {
      isLoading, scriptContent := false, [];
    }

    /** `onSubmit` before the call: loading, and the previous script gone. */
    method BeginSubmit()
      modifies this
      ensures isLoading && scriptContent == []
    {
      isLoading := true;
      scriptContent := [];
    }

    /** `onSubmit` after the call: the new script on success; loading ends
        either way. */
    method FinishSubmit(outcome: Option<string>)
      modifies this
      ensures !isLoading
      ensures scriptContent == (if outcome.Some? then outcome.value else old(scriptContent))
    {
      if outcome.Some? {
        scriptContent := outcome.value;
      }
      isLoading := false;
    }

    /** A whole submission: a form that breaks a rule never reaches the
        handler; otherwise the page ends not loading, showing the new script,
        or nothing after a failure. */
    method Submit(form: ScriptForm, outcome: Option<string>) returns (accepted: bool)
      modifies this
      ensures accepted <==> ValidScriptForm(form)
      ensures !accepted ==> isLoading == old(isLoading) && scriptContent == old(scriptContent)
      ensures accepted ==> !isLoading && scriptContent == (if outcome.Some? then outcome.value else [])
    {
      accepted := ValidScriptForm(form);
      if accepted {
        BeginSubmit();
        FinishSubmit(outcome);
      }
    }
  }
}
