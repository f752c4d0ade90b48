/** The administrator's edit form (AdminPanel.tsx): a draft of the two counts, an error
    message and a transient "saved" flag. */
module Admin {
  import opened Wrappers
  import opened Stats
  import opened JsParseInt

  const NegativeValuesMessage: string := "Negative values are not allowed."

  /** The number handleChange stores for the text of an input: parseInt's result, with NaN read as 0. */
  function FieldValue(text: string): (n: int)
    ensures ParseInt(text) == None ==> n == 0
    ensures ParseInt(text) != None ==> ParseInt(text) == Some(n)
  {
    match ParseInt(text)
    case None => 0
    case Some(v) => v
  }

  /** Text with no decimal digit in it, the empty text included, is stored as 0. */
  lemma FieldValueNaNIsZero(text: string)
    requires forall i :: 0 <= i < |text| ==> !('0' <= text[i] <= '9')
    ensures FieldValue(text) == 0
  {
    ParseIntNaN(text);
  }

  /** The decimal text of any integer is stored as that integer: negative input is not
      clamped when it is typed, only rejected on submit. */
  lemma FieldValueOfNumeral(n: int)
    ensures FieldValue(DecimalString(n)) == n
  {
    ParseIntRoundTrip(n);
  }

  /** What submitting a draft produces: the error message when a count is negative, otherwise
      the record handed to onSave, whose total is the sum of the draft's counts. */
  function Submission(boys: int, girls: int, now: string): (r: Result<StudentStats, string>)
    ensures r.Ok? <==> boys >= 0 && girls >= 0
    ensures r.Err? ==> r.error == NegativeValuesMessage
    ensures r.Ok? ==> r.value.boys == boys && r.value.girls == girls && r.value.lastUpdated == now
    ensures r.Ok? ==> Consistent(r.value) && NonNegative(r.value)
  {
    if boys < 0 || girls < 0 then Err(NegativeValuesMessage)
    else Ok(StudentStats(boys + girls, boys, girls, now))
  }

  class AdminPanel {
    var boys: int
    var girls: int
    var isSaved: bool
    var error: Option<string>

    /** The form starts from the counts of the record it is given; the record's total and
        timestamp are not part of the draft. */
    constructor (stats: StudentStats)
      ensures boys == stats.boys && girls == stats.girls
      ensures !isSaved && error == None
    {
      boys, girls := stats.boys, stats.girls;
      isSaved, error := false, None;
    }

    /** The live total the form shows, always derived from the draft. */
    function Total(): (t: int)
      reads this
    {
      boys + girls
    }

    /** The change handler of an input named `name`: only the count with that name is set,
        to the input's text read through parseInt. */
    method HandleChange(name: string, value: string)
      modifies this
      ensures boys == (if name == "boys" then FieldValue(value) else old(boys))
      ensures girls == (if name == "girls" then FieldValue(value) else old(girls))
      ensures isSaved == old(isSaved) && error == old(error)
    {
      var num := ParseInt(value);
      var n := if num == None then 0 else num.value;
      if name == "boys" {
        boys := n;
      } else if name == "girls" {
        girls := n;
      }
    }

    /** The submit handler. It returns the record it hands to onSave, or None when onSave is
        not called. The draft itself never changes. */
    method HandleSubmit(now: string) returns (saved: Option<StudentStats>)
      modifies this
      ensures boys == old(boys) && girls == old(girls)
      ensures saved.Some? ==> saved.value.total == old(Total())
      ensures match Submission(boys, girls, now)
              case Ok(r) => saved == Some(r) && error == None && isSaved
              case Err(m) => saved == None && error == Some(m) && isSaved == old(isSaved)
    {
      error := None;
      if boys < 0 || girls < 0 {
        error := Some(NegativeValuesMessage);
        return None;
      }
      var newStats := StudentStats(Total(), boys, girls, now);
      saved := Some(newStats);
      isSaved := true;
    }

    /** Submitting the form: the submit button is disabled while the saved flag is up, and
        then nothing happens. */
    method Submit(now: string) returns (saved: Option<StudentStats>)
      modifies this
      ensures old(isSaved) ==> saved == None && unchanged(this)
      ensures !old(isSaved) ==> boys == old(boys) && girls == old(girls)
      ensures !old(isSaved) ==>
                match Submission(boys, girls, now)
                case Ok(r) => saved == Some(r) && error == None && isSaved
                case Err(m) => saved == None && error == Some(m) && !isSaved
    {
      if isSaved {
        return None;
      }
      saved := HandleSubmit(now);
    }

    /** The timer set by a successful submit: when it fires, the saved flag drops. */
    method SavedTimerElapsed()
      modifies this
      ensures !isSaved
      ensures boys == old(boys) && girls == old(girls) && error == old(error)
    {
      isSaved := false;
    }
  }
}
