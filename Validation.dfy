/** The two form validators. Each builds a map from field name to error message by
    conditional assignments; an empty map means the form may be submitted. */
module Validation {

  import opened Wrappers
  import opened Text
  import opened Phone

  /** The `date` value of the event form, as the validator sees it. `NoDate` is a falsy
      value (absent or the empty string); `Unparsable` is a non-empty string that `Date`
      cannot read (its time is NaN); `At` is a date at a millisecond instant. */
  datatype DateInput = NoDate | Unparsable | At(ms: int)

  datatype EventForm = EventForm(name: Option<string>, date: DateInput, location: Option<string>)

  datatype ParticipantForm = ParticipantForm(name: Option<string>, phone: Option<string>)

  const EventNameRequired := "שם האירוע הוא שדה חובה"
  const DateRequired := "תאריך הוא שדה חובה"
  const DateInPast := "לא ניתן ליצור אירוע בתאריך שעבר"
  const LocationRequired := "מיקום הוא שדה חובה"
  const ParticipantNameRequired := "שם המשתתף הוא שדה חובה"
  const PhoneRequired := "מספר טלפון הוא שדה חובה"
  const PhoneInvalid := "מספר טלפון לא תקין"

  /** A date the event form lets through: present and not strictly before `now`. A date
      `Date` cannot parse also passes, since NaN compares false with every instant. */
  predicate DateAccepted(d: DateInput, now: int): (b: bool)
    ensures b <==> !d.NoDate? && !(d.At? && d.ms < now)
  {
    d.Unparsable? || (d.At? && d.ms >= now)
  }

  /** `validateEventForm`: `name` and `location` are required (non-blank after trimming);
      `date` is required and may not lie before the clock. */
  method ValidateEventForm(form: EventForm, now: int) returns (errors: map<string, string>)
    ensures errors.Keys <= {"name", "date", "location"}
    ensures "name" in errors <==> Blank(form.name)
    ensures "name" in errors ==> errors["name"] == EventNameRequired
    ensures "date" in errors <==> !DateAccepted(form.date, now)
    ensures "date" in errors ==> errors["date"] == if form.date.NoDate? then DateRequired else DateInPast
    ensures "location" in errors <==> Blank(form.location)
    ensures "location" in errors ==> errors["location"] == LocationRequired
    ensures errors == map[] <==>
              !Blank(form.name) && DateAccepted(form.date, now) && !Blank(form.location)
  {
    var nameBlank, locationBlank := Blank(form.name), Blank(form.location);
    errors := map[];
    if nameBlank {
      errors := errors["name" := EventNameRequired];
    }
    if form.date.NoDate? {
      errors := errors["date" := DateRequired];
    } else if form.date.At? && form.date.ms < now {
      errors := errors["date" := DateInPast];
    }
    if locationBlank {
      errors := errors["location" := LocationRequired];
    }
    if errors != map[] {
      assert "name" in errors || "date" in errors || "location" in errors;
    }
  }

  /** `validateParticipantForm`: `name` is required; `phone` is required and, when it is
      not blank, must pass `validatePhone` as written (untrimmed). */
  method ValidateParticipantForm(form: ParticipantForm) returns (errors: map<string, string>)
    ensures errors.Keys <= {"name", "phone"}
    ensures "name" in errors <==> Blank(form.name)
    ensures "name" in errors ==> errors["name"] == ParticipantNameRequired
    ensures "phone" in errors <==> Blank(form.phone) || !ValidatePhone(form.phone.value)
    ensures "phone" in errors ==>
              errors["phone"] == if Blank(form.phone) then PhoneRequired else PhoneInvalid
    ensures errors == map[] <==>
              !Blank(form.name) && form.phone.Some? && ValidatePhone(form.phone.value)
  {
    var nameBlank, phoneBlank := Blank(form.name), Blank(form.phone);
    var phoneValid := form.phone.Some? && ValidatePhone(form.phone.value);
    errors := map[];
    if nameBlank {
      errors := errors["name" := ParticipantNameRequired];
    }
    if phoneBlank {
      errors := errors["phone" := PhoneRequired];
    } else if !phoneValid {
      errors := errors["phone" := PhoneInvalid];
    }
    if errors != map[] {
      assert "name" in errors || "phone" in errors;
    }
  }

  /** A valid phone number is never blank, so the phone check needs no separate
      presence test once the number is known to be valid. */
  lemma ValidPhoneIsNotBlank(s: string)
    requires ValidatePhone(s)
    ensures !Blank(Some(s))
  {
    ValidPhoneShape(s);
    assert !IsJsWhitespace(s[0]);
  }

  /** An empty event form fails on all three fields; a filled one dated in the future, or
      at the very instant of the clock, passes. */
  method EventFormExamples(now: int) returns (empty: map<string, string>, filled: map<string, string>,
                                              atNow: map<string, string>)
    ensures empty.Keys == {"name", "date", "location"} && empty["date"] == DateRequired
    ensures filled == map[] && atNow == map[]
  {
    empty := ValidateEventForm(EventForm(None, NoDate, None), now);
    assert !IsJsWhitespace("A"[0]) && !IsJsWhitespace("B"[0]);
    filled := ValidateEventForm(EventForm(Some("A"), At(now + 86400000), Some("B")), now);
    atNow := ValidateEventForm(EventForm(Some("A"), At(now), Some("B")), now);
  }

  /** A phone number with a leading space is not blank, but fails the pattern. */
  lemma PaddedPhone()
    ensures !ValidatePhone(" 0501234567") && !Blank(Some(" 0501234567"))
    ensures !Blank(Some("A"))
  {
    var phone := " 0501234567";
    assert phone[0] == ' ' && phone[..4][0] == ' ';
    assert !IsJsWhitespace("A"[0]);
    assert !IsJsWhitespace(phone[1]);
  }

  /** The form reports a phone number with a leading space as invalid, not as missing. */
  method ParticipantFormExamples() returns (padded: map<string, string>)
    ensures padded.Keys == {"phone"} && padded["phone"] == PhoneInvalid
  {
    PaddedPhone();
    padded := ValidateParticipantForm(ParticipantForm(Some("A"), Some(" 0501234567")));
    assert "name" !in padded;
  }
}
