/**
 * The contact form: its three fields, the validation run before a
 * submission, the submission life cycle (idle, sending, thanked, idle
 * again) and the per-keystroke update that clears a field's error.
 * The two timers of the page are modelled by the states before and after
 * they fire, not by their durations.
 */
module ContactForm {
  import opened Wrappers
  import opened Text
  import opened Environment
  import opened UriCompose
  import opened Dispatch

  /** The `name` attribute of each input; the change handler is keyed by it. */
  datatype Field = Name | Email | Message

  datatype FormData = FormData(name: string, email: string, message: string) {
    function Get(f: Field): string {
      match f
      case Name => name
      case Email => email
      case Message => message
    }

    /** The spread update `{ ...prev, [name]: value }`. */
    function Set(f: Field, v: string): (d: FormData)
      ensures d.Get(f) == v
      ensures forall g :: g != f ==> d.Get(g) == Get(g)
    {
      match f
      case Name => this.(name := v)
      case Email => this.(email := v)
      case Message => this.(message := v)
    }
  }

  const EmptyForm := FormData("", "", "")

  /**
   * The component's state: the field values, the error texts by field,
   * whether a submission is in flight and whether the thank-you banner shows.
   */
  datatype FormState = FormState(data: FormData, errors: map<Field, string>, submitting: bool, succeeded: bool)

  const Initial := FormState(EmptyForm, map[], false, false)

  /** An error is shown for a field only when its text is present and non-empty. */
  predicate Shown(s: FormState, f: Field) {
    f in s.errors && s.errors[f] != ""
  }

  /** `String.prototype.length`: UTF-16 code units, two for a character outside the Basic Multilingual Plane. */
  function Utf16Length(s: string): (n: nat)
    ensures |s| <= n <= 2 * |s|
  {
    if s == [] then 0
    else (if s[0] as int > 0xFFFF then 2 else 1) + Utf16Length(s[1..])
  }

  /** The length in code units equals the number of characters exactly when none is outside the BMP. */
  lemma {:induction false} Utf16LengthIsCountForBmp(s: string)
    ensures Utf16Length(s) == |s| <==> forall i | 0 <= i < |s| :: s[i] as int <= 0xFFFF
  {
    if s != [] {
      Utf16LengthIsCountForBmp(s[1..]);
      if s[0] as int <= 0xFFFF && Utf16Length(s) == |s| {
        forall i | 0 <= i < |s| ensures s[i] as int <= 0xFFFF {
          if i > 0 { assert s[i] == s[1..][i - 1]; }
        }
      }
      if forall i | 0 <= i < |s| :: s[i] as int <= 0xFFFF {
        forall i | 0 <= i < |s| - 1 ensures s[1..][i] as int <= 0xFFFF {
          assert s[1..][i] == s[i + 1];
        }
      }
    }
  }

  /**
   * One match of `/\S+@\S+\.\S+/` with its `@` at `m` and its `.` at `d`:
   * a non-space right before the `@`, at least one non-space between the two,
   * and a non-space right after the dot.
   */
  predicate EmailMatchAt(s: string, m: int, d: int) {
    && 1 <= m && m + 2 <= d && d + 1 < |s|
    && s[m] == '@' && s[d] == '.'
    && !IsJsSpace(s[m - 1])
    && (forall k | m + 1 <= k < d :: !IsJsSpace(s[k]))
    && !IsJsSpace(s[d + 1])
  }

  /** The unanchored test `/\S+@\S+\.\S+/.test(s)`. */
  predicate EmailShaped(s: string) {
    exists m, d | 0 <= m < d < |s| :: EmailMatchAt(s, m, d)
  }

  /** An address the pattern accepts holds an `@`, so it is not blank. */
  lemma EmailShapedIsNotBlank(s: string)
    requires EmailShaped(s)
    ensures !Blank(s)
  {
    var m, d :| 0 <= m < d < |s| && EmailMatchAt(s, m, d);
    assert !IsJsSpace(s[m]);
  }

  /** The error text for one field's value, if it fails its check. */
  function FieldError(f: Field, v: string): (r: Option<string>)
    ensures f == Name ==> (r.Some? <==> Blank(v)) && (r.Some? ==> r.value == "Name is required")
    ensures f == Email ==> (r.Some? <==> Blank(v) || !EmailShaped(v))
    ensures f == Email && r.Some? ==> r.value == if Blank(v) then "Email is required" else "Email is invalid"
    ensures f == Message ==> (r.Some? <==> Blank(v) || Utf16Length(v) < 10)
    ensures f == Message && r.Some? ==>
      r.value == if Blank(v) then "Message is required" else "Message must be at least 10 characters"
    ensures r.Some? ==> r.value != ""
  {
    TrimEmptyIffBlank(v);
    match f
    case Name =>
      if Trim(v) == "" then Some("Name is required") else None
    case Email =>
      if Trim(v) == "" then Some("Email is required")
      else if !EmailShaped(v) then Some("Email is invalid")
      else None
    case Message =>
      if Trim(v) == "" then Some("Message is required")
      else if Utf16Length(v) < 10 then Some("Message must be at least 10 characters")
      else None
  }

  /** `newErrors[f] = text` when the field fails. */
  function Put(m: map<Field, string>, f: Field, r: Option<string>): (m': map<Field, string>)
    ensures f in m' <==> f in m || r.Some?
    ensures r.Some? ==> m'[f] == r.value
    ensures r.None? && f in m ==> m'[f] == m[f]
    ensures forall g | g != f :: (g in m' <==> g in m) && (g in m ==> m'[g] == m[g])
  {
    if r.Some? then m[f := r.value] else m
  }

  /**
   * `validateForm`: each field that fails its check gets its error text,
   * and only those fields; the form is valid when the map is empty.
   */
  function ValidateForm(d: FormData): (errs: map<Field, string>)
    ensures Name in errs <==> FieldError(Name, d.name).Some?
    ensures Email in errs <==> FieldError(Email, d.email).Some?
    ensures Message in errs <==> FieldError(Message, d.message).Some?
    ensures Name in errs ==> errs[Name] == FieldError(Name, d.name).value
    ensures Email in errs ==> errs[Email] == FieldError(Email, d.email).value
    ensures Message in errs ==> errs[Message] == FieldError(Message, d.message).value
  {
    var e1 := FieldError(Name, d.name);
    var e2 := FieldError(Email, d.email);
    var e3 := FieldError(Message, d.message);
    Put(Put(Put(map[], Name, e1), Email, e2), Message, e3)
  }

  /** `Object.keys(newErrors).length === 0`. */
  predicate IsValid(d: FormData) {
    ValidateForm(d) == map[]
  }

  /** A form is valid exactly when the name is not blank, the address matches and the message is long enough and not blank. */
  lemma ValidIff(d: FormData)
    ensures IsValid(d) <==>
      !Blank(d.name) && EmailShaped(d.email) && !Blank(d.message) && Utf16Length(d.message) >= 10
  {
    var errs := ValidateForm(d);
    if EmailShaped(d.email) {
      EmailShapedIsNotBlank(d.email);
    }
    if !IsValid(d) {
      var f :| f in errs;
      assert f == Name || f == Email || f == Message;
    }
  }

  /** Each field's error depends on that field alone. */
  lemma ValidationIsPerField(d: FormData, f: Field, v: string, g: Field)
    requires g != f
    ensures g in ValidateForm(d.Set(f, v)) <==> g in ValidateForm(d)
    ensures g in ValidateForm(d) ==> ValidateForm(d.Set(f, v))[g] == ValidateForm(d)[g]
  {
    assert d.Set(f, v).Get(g) == d.Get(g);
    match g
    case Name =>
    case Email =>
    case Message =>
  }

  /**
   * The blank check trims, the length check does not: a short message padded
   * with spaces to ten characters passes.
   */
  lemma PaddedShortMessagePasses()
    ensures FieldError(Message, "    hi    ").None?
  {
    var msg := "    hi    ";
    assert !IsJsSpace(msg[4]);
    assert Utf16Length(msg) >= |msg| == 10;
  }

  /** The pattern is searched for in the untrimmed address, unanchored: surrounding spaces pass. */
  lemma PaddedAddressPasses()
    ensures FieldError(Email, " a@b.c ").None?
  {
    var s := " a@b.c ";
    assert EmailMatchAt(s, 2, 4);
    EmailShapedIsNotBlank(s);
  }

  /** The pattern needs its `.` after the `@`: an address whose only dot precedes the `@` fails. */
  lemma DotBeforeAtFails(s: string, at: int)
    requires 0 <= at < |s| && s[at] == '@'
    requires forall k | 0 <= k < |s| && k != at :: s[k] != '@'
    requires forall k | at < k < |s| :: s[k] != '.'
    ensures !EmailShaped(s)
  {
    forall m, d | 0 <= m < d < |s| ensures !EmailMatchAt(s, m, d) {
      if m != at {
        assert s[m] != '@';
      } else {
        assert s[d] != '.';
      }
    }
  }

  /** `a.b@c` is rejected as an invalid address. */
  lemma DotOnlyBeforeAtExample()
    ensures FieldError(Email, "a.b@c") == Some("Email is invalid")
  {
    var s := "a.b@c";
    assert !Blank(s) by { assert !IsJsSpace(s[0]); }
    forall k | 0 <= k < |s| && k != 3 ensures s[k] != '@' {
      assert k == 0 || k == 1 || k == 2 || k == 4;
    }
    DotBeforeAtFails(s, 3);
  }

  /** When every field fails, the map holds exactly the three texts. */
  lemma AllFieldsFail(d: FormData)
    requires FieldError(Name, d.name).Some?
    requires FieldError(Email, d.email).Some?
    requires FieldError(Message, d.message).Some?
    ensures ValidateForm(d) == map[
      Name := FieldError(Name, d.name).value,
      Email := FieldError(Email, d.email).value,
      Message := FieldError(Message, d.message).value]
  {
    var errs := ValidateForm(d);
    forall f | f in errs ensures f in {Name, Email, Message} {
      assert f == Name || f == Email || f == Message;
    }
  }

  /** `a@b` has no dot after its `@`. */
  lemma NoDotAddressIsInvalid()
    ensures FieldError(Email, "a@b") == Some("Email is invalid")
  {
    var s := "a@b";
    assert !Blank(s) by { assert !IsJsSpace(s[0]); }
    forall k | 0 <= k < |s| && k != 1 ensures s[k] != '@' {
      assert k == 0 || k == 2;
    }
    DotBeforeAtFails(s, 1);
  }

  /** `short` is not blank but has five units. */
  lemma FiveCharacterMessageIsShort()
    ensures FieldError(Message, "short") == Some("Message must be at least 10 characters")
  {
    var s := "short";
    assert !Blank(s) by { assert !IsJsSpace(s[0]); }
    assert Utf16Length(s) <= 10;
  }

  /** An empty name, an address without a dot and a short message get all three errors. */
  lemma ThreeErrorsExample()
    ensures ValidateForm(FormData("", "a@b", "short")) == map[
      Name := "Name is required",
      Email := "Email is invalid",
      Message := "Message must be at least 10 characters"]
  {
    assert Blank("");
    NoDotAddressIsInvalid();
    FiveCharacterMessageIsShort();
    AllFieldsFail(FormData("", "a@b", "short"));
  }

  /** A form passes when no field fails its check. */
  lemma NoFieldFails(d: FormData)
    requires FieldError(Name, d.name).None?
    requires FieldError(Email, d.email).None?
    requires FieldError(Message, d.message).None?
    ensures IsValid(d)
  {
    var errs := ValidateForm(d);
    forall f ensures f !in errs {
      match f
      case Name =>
      case Email =>
      case Message =>
    }
  }

  lemma JaneNameIsPresent()
    ensures FieldError(Name, "Jane").None?
  {
    assert !IsJsSpace("Jane"[0]);
  }

  lemma JaneAddressMatches()
    ensures FieldError(Email, "jane@x.com").None?
  {
    var s := "jane@x.com";
    assert EmailMatchAt(s, 4, 6);
    EmailShapedIsNotBlank(s);
  }

  lemma TwentyCharacterMessageIsLongEnough()
    ensures FieldError(Message, "This is long enough.").None?
  {
    var s := "This is long enough.";
    assert !IsJsSpace(s[0]);
    assert Utf16Length(s) >= |s| == 20;
  }

  /** A filled-in form with a plain address and a twenty-character message is valid. */
  lemma ValidExample()
    ensures IsValid(FormData("Jane", "jane@x.com", "This is long enough."))
  {
    JaneNameIsPresent();
    JaneAddressMatches();
    TwentyCharacterMessageIsLongEnough();
    NoFieldFails(FormData("Jane", "jane@x.com", "This is long enough."));
  }

  /**
   * `handleInputChange`: the field takes the new value; its error text is
   * blanked only if one is shown, and the key stays in the map.
   */
  function InputChange(s: FormState, f: Field, v: string): (t: FormState)
    ensures t.data.Get(f) == v
    ensures forall g :: g != f ==> t.data.Get(g) == s.data.Get(g)
    ensures t.errors.Keys == s.errors.Keys
    ensures !Shown(t, f)
    ensures forall g | g in s.errors && g != f :: t.errors[g] == s.errors[g]
    ensures f in s.errors ==> t.errors[f] == ""
    ensures t.submitting == s.submitting && t.succeeded == s.succeeded
  {
    var errors := if Shown(s, f) then s.errors[f := ""] else s.errors;
    s.(data := s.data.Set(f, v), errors := errors)
  }

  /** Typing the same value twice is the same as typing it once. */
  lemma InputChangeIdempotent(s: FormState, f: Field, v: string)
    ensures InputChange(InputChange(s, f, v), f, v) == InputChange(s, f, v)
  {
    var t := InputChange(s, f, v);
    assert t.data.Set(f, v) == t.data by {
      match f
      case Name =>
      case Email =>
      case Message =>
    }
  }

  /** What one press of the submit button leads to. */
  datatype Outcome =
    | Rejected(state: FormState)
    | Sent(acts: seq<HostAction>, during: FormState, after: FormState)

  /**
   * `handleSubmit`: an invalid form only gets its errors replaced; a valid
   * one is dispatched with the entered values, shows the sending state until
   * the first timer fires and is then cleared and thanked.
   */
  function Submit(site: Site, s: FormState, e: Env, popupOpened: bool): (o: Outcome)
    requires WellFormed(site)
    ensures o.Rejected? <==> !IsValid(s.data)
    ensures o.Rejected? ==> o.state == s.(errors := ValidateForm(s.data)) && o.state.errors != map[]
    ensures o.Sent? ==>
      && 1 <= |o.acts| <= 2
      && o.during == s.(errors := map[], submitting := true)
      && o.after == FormState(EmptyForm, map[], false, true)
    ensures o.Sent? ==> o.acts == SubmitActions(site, e, s.data.name, s.data.email, s.data.message, popupOpened)
    ensures o.Sent? && e.mobile ==>
      |o.acts| == 1 && o.acts[0].NavigateCurrent?
      && ReadSms(o.acts[0].url)
         == Some((site.smsNumber, if e.appleUa then '&' else '?', Details(s.data.name, s.data.email, s.data.message)))
    ensures o.Sent? && !e.mobile && e.webView ==>
      |o.acts| == 1 && o.acts[0].OpenNewWindow?
      && ReadGmailCompose(o.acts[0].url)
         == Some(GmailComposeParams(site.ownerEmail, site.formSubject, Details(s.data.name, s.data.email, s.data.message)))
    ensures o.Sent? && !e.mobile && !e.webView ==>
      && o.acts[0].OpenNewWindow?
      && ReadMailto(o.acts[0].url)
         == Some((site.ownerEmail, MailFields(site.formSubject, Details(s.data.name, s.data.email, s.data.message))))
      && (|o.acts| == 2 <==> !popupOpened)
      && (|o.acts| == 2 ==> o.acts[1] == NavigateCurrent(o.acts[0].url))
  {
    var errs := ValidateForm(s.data);
    if errs != map[] then Rejected(s.(errors := errs))
    else
      var acts := SubmitActions(site, e, s.data.name, s.data.email, s.data.message, popupOpened);
      Sent(acts, s.(errors := errs, submitting := true), FormState(EmptyForm, map[], false, true))
  }

  /** The second timer: the thank-you banner goes away. */
  function SuccessTimeout(s: FormState): (t: FormState)
    ensures !t.succeeded
    ensures t.data == s.data && t.errors == s.errors && t.submitting == s.submitting
  {
    s.(succeeded := false)
  }

  /** A rejected form submitted again, unchanged, is rejected the same way. */
  lemma RejectionIsStable(site: Site, s: FormState, e: Env, popupOpened: bool)
    requires WellFormed(site)
    requires !IsValid(s.data)
    ensures Submit(site, Submit(site, s, e, popupOpened).state, e, popupOpened) == Submit(site, s, e, popupOpened)
  {
  }

  /** After a rejection each shown error is cleared by editing its field, and only by that. */
  lemma EditingClearsOnlyThatError(site: Site, s: FormState, e: Env, popupOpened: bool, f: Field, v: string, g: Field)
    requires WellFormed(site)
    requires !IsValid(s.data)
    requires g != f
    ensures var r := Submit(site, s, e, popupOpened).state;
      !Shown(InputChange(r, f, v), f) && (Shown(InputChange(r, f, v), g) <==> g in ValidateForm(s.data))
  {
  }

  /**
   * A valid submission and the banner's timeout bring the form back to its
   * initial state, whatever it held before.
   */
  lemma SubmissionCycleReturnsToInitial(site: Site, s: FormState, e: Env, popupOpened: bool)
    requires WellFormed(site)
    requires IsValid(s.data)
    ensures Submit(site, s, e, popupOpened).Sent?
    ensures SuccessTimeout(Submit(site, s, e, popupOpened).after) == Initial
  {
  }
}
