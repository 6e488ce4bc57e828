/** `register/src/js/utils.js`: the random link token, the Node-side form
    validator and `sanitizeInput`. */
module Utils {
  import opened Wrappers
  import opened Text
  import opened Numbers
  import opened Forms
  import Html
  import Config

  // ------------------------------------------------------------ random token

  /** The 62 characters a generated token is drawn from. */
  const Alphabet := "ABCDEFGHIJKLMNOPQRSTUVWXYZabcdefghijklmnopqrstuvwxyz0123456789"

  const DefaultLength := 16

  /** `Math.floor(x * chars.length)` for a draw `x` of `Math.random()`. */
  function Pick(x: real): (k: nat)
    requires 0.0 <= x < 1.0
    ensures k < |Alphabet|
  {
    var f := (x * 62.0).Floor;
    assert f as real <= x * 62.0 < 62.0;
    f
  }

  /** `generateRandomString(length)`, with the successive values of
      `Math.random()` given as `draws`. */
  method GenerateRandomString(length: nat, draws: seq<real>) returns (r: string)
    requires length <= |draws|
    requires forall i | 0 <= i < |draws| :: 0.0 <= draws[i] < 1.0
    ensures |r| == length
    ensures forall i | 0 <= i < |r| :: r[i] in Alphabet
    ensures forall i | 0 <= i < length :: r[i] == Alphabet[Pick(draws[i])]
  {
    r := "";
    var i := 0;
    while i < length
      invariant 0 <= i <= length && |r| == i
      invariant forall k | 0 <= k < i :: r[k] == Alphabet[Pick(draws[k])]
    {
      r := r + [Alphabet[Pick(draws[i])]];
      i := i + 1;
    }
  }

  // ------------------------------------------------------------ email shape

  /** A stretch the pattern's `[^\s@]+` may cover. */
  predicate Plain(t: string) {
    forall k | 0 <= k < |t| :: !IsJsSpace(t[k]) && t[k] != '@'
  }

  /** `s` matches `^[^\s@]+@[^\s@]+\.[^\s@]+$` with the `@` at `i` and the dot at `j`. */
  predicate MatchAt(s: string, i: int, j: int) {
    && 0 < i && i + 1 < j && j + 1 < |s|
    && s[i] == '@' && s[j] == '.'
    && Plain(s[..i]) && Plain(s[i + 1..j]) && Plain(s[j + 1..])
  }

  predicate EmailPattern(s: string) {
    exists i, j | 0 <= i < |s| && 0 <= j < |s| :: MatchAt(s, i, j)
  }

  /** The pattern test as it is decided: one `@`, something before it, and a
      dot strictly inside what follows it, all free of whitespace. */
  function EmailTest(s: string): bool {
    match IndexOf(s, '@')
    case None => false
    case Some(i) =>
      var rest := s[i + 1..];
      i > 0 && Plain(s[..i]) && Plain(rest) && |rest| >= 3 && '.' in rest[1..|rest| - 1]
  }

  lemma EmailTestSound(s: string)
    requires EmailTest(s)
    ensures EmailPattern(s)
  {
    var i := IndexOf(s, '@').value;
    var rest := s[i + 1..];
    var mid := rest[1..|rest| - 1];
    var k :| 0 <= k < |mid| && mid[k] == '.';
    var j := i + 2 + k;
    assert s[j] == '.';
    assert s[i + 1..j] == rest[..j - i - 1];
    assert s[j + 1..] == rest[j - i..];
    assert MatchAt(s, i, j);
  }

  lemma EmailTestComplete(s: string, i: int, j: int)
    requires MatchAt(s, i, j)
    ensures EmailTest(s)
  {
    assert s[i] == '@';
    var rest := s[i + 1..];
    assert rest == s[i + 1..j] + [s[j]] + s[j + 1..];
    assert rest[1..|rest| - 1][j - i - 2] == '.';
  }

  /** The decision procedure accepts exactly the strings the pattern matches. */
  lemma EmailTestIff(s: string)
    ensures EmailTest(s) <==> EmailPattern(s)
  {
    if EmailTest(s) {
      EmailTestSound(s);
    }
    if EmailPattern(s) {
      var i, j :| 0 <= i < |s| && 0 <= j < |s| && MatchAt(s, i, j);
      EmailTestComplete(s, i, j);
    }
  }

  // ------------------------------------------------------------ validateForm

  /** The labels of the required fields. */
  const Labels: map<string, string> := map[
    "meno" := "Meno", "priezvisko" := "Priezvisko", "email" := "Email", "vek" := "Vek",
    "pohlavie" := "Pohlavie", "ubytovanie_id" := "Ubytovanie", "gdpr" := "GDPR súhlas"]

  const EmailFormat := "Neplatný formát emailu."
  const AgeWindow := "Vek musí byť 14-26 rokov v tomto roku."
  const GroupRequired := "Zadajte názov vášho spoločenstva."
  const ActivityRequired := "Vyberte aspoň jednu aktivitu."

  datatype Validation = Validation(isValid: bool, errors: map<string, string>)

  /** `parseInt` without a radix of a value that may be `null` (which parses to NaN). */
  function ParseOpt(v: Option<string>): Option<int> {
    if v.Some? then ParseIntAuto(v.value) else None
  }

  /** The age test as written: `vek < 14 || vek - 14 + year > year + 13`. */
  predicate AgeRejected(vek: int, year: int) {
    vek < 14 || vek - 14 + year > year + 13
  }

  /** One message per required field that is falsy. */
  function RequiredErrors(fd: FormData): (e: map<string, string>)
    ensures forall f :: f in e <==> f in Labels && !Truthy(Get(fd, f))
  {
    map f | f in Labels && !Truthy(Get(fd, f)) :: Labels[f] + " je povinné pole."
  }

  /** The email error replaces nothing: it is set only for a present address. */
  function EmailErrors(fd: FormData, e: map<string, string>): (r: map<string, string>)
    ensures r.Keys == e.Keys + (if Truthy(Get(fd, "email")) && !EmailPattern(Get(fd, "email").value) then {"email"} else {})
  {
    var email := Get(fd, "email");
    EmailTestIff(if email.Some? then email.value else "");
    if Truthy(email) && !EmailTest(email.value) then e["email" := EmailFormat] else e
  }

  function AgeErrors(fd: FormData, year: int, e: map<string, string>): (r: map<string, string>)
    ensures r.Keys == e.Keys + (if ParseOpt(Get(fd, "vek")).Some? && !(14 <= ParseOpt(Get(fd, "vek")).value <= 27)
                                then {"vek"} else {})
  {
    var vek := ParseOpt(Get(fd, "vek"));
    if vek.Some? && AgeRejected(vek.value, year) then e["vek" := AgeWindow] else e
  }

  function GroupErrors(fd: FormData, e: map<string, string>): (r: map<string, string>)
    ensures r.Keys == e.Keys + (if Get(fd, "mladez_id") == Some("iny") && !Truthy(Get(fd, "vlastny_mladez"))
                                then {"vlastny_mladez"} else {})
  {
    if Get(fd, "mladez_id") == Some("iny") && !Truthy(Get(fd, "vlastny_mladez"))
    then e["vlastny_mladez" := GroupRequired] else e
  }

  function ActivityErrors(fd: FormData, e: map<string, string>): (r: map<string, string>)
    ensures r.Keys == e.Keys + (if GetAll(fd, "aktivity") == [] then {"aktivity"} else {})
  {
    if GetAll(fd, "aktivity") == [] then e["aktivity" := ActivityRequired] else e
  }

  /** `validateForm(formData)`: one message per offending field; the form is
      valid exactly when there is none. A numeric age is accepted exactly in
      14..27, whatever the year. */
  function ValidateForm(fd: FormData, year: int): (r: Validation)
    ensures r.isValid <==> r.errors == map[]
    ensures r.errors.Keys ==
              RequiredErrors(fd).Keys
              + (if Truthy(Get(fd, "email")) && !EmailPattern(Get(fd, "email").value) then {"email"} else {})
              + (if ParseOpt(Get(fd, "vek")).Some? && !(14 <= ParseOpt(Get(fd, "vek")).value <= 27) then {"vek"} else {})
              + (if Get(fd, "mladez_id") == Some("iny") && !Truthy(Get(fd, "vlastny_mladez")) then {"vlastny_mladez"} else {})
              + (if GetAll(fd, "aktivity") == [] then {"aktivity"} else {})
  {
    var e := ActivityErrors(fd, GroupErrors(fd, AgeErrors(fd, year, EmailErrors(fd, RequiredErrors(fd)))));
    Validation(|e| == 0, e)
  }

  /** No required-field message exactly when every required field is truthy. */
  lemma RequiredNone(fd: FormData)
    ensures RequiredErrors(fd).Keys == {} <==> forall f | f in Labels :: Truthy(Get(fd, f))
  {
    if !(forall f | f in Labels :: Truthy(Get(fd, f))) {
      var f :| f in Labels && !Truthy(Get(fd, f));
      assert f in RequiredErrors(fd).Keys;
    }
  }

  /** A form passes exactly when every required field is truthy, the address
      matches the pattern, a numeric age lies in 14..27, a custom group is
      named, and at least one activity is chosen. */
  lemma ValidIff(fd: FormData, year: int)
    ensures ValidateForm(fd, year).isValid <==>
              && (forall f | f in Labels :: Truthy(Get(fd, f)))
              && EmailPattern(Get(fd, "email").value)
              && (ParseOpt(Get(fd, "vek")).Some? ==> 14 <= ParseOpt(Get(fd, "vek")).value <= 27)
              && !(Get(fd, "mladez_id") == Some("iny") && !Truthy(Get(fd, "vlastny_mladez")))
              && GetAll(fd, "aktivity") != []
  {
    var v := ValidateForm(fd, year);
    assert v.errors == map[] <==> v.errors.Keys == {} by {
      if v.errors.Keys == {} {
        assert v.errors == map[];
      }
    }
    RequiredNone(fd);
  }

  // ------------------------------------------------------------ sanitizeInput

  /** `sanitizeInput(input)`: falsy input gives "", anything else is escaped. */
  function SanitizeInput(input: Option<string>): (r: string)
    ensures !Truthy(input) ==> r == ""
    ensures Truthy(input) ==> r == Html.Escape(input.value)
  {
    if !Truthy(input) then ""
    else
      Html.ReplaceChainIsEscape(input.value);
      Html.ReplaceChain(input.value)
  }

  /** The Node and PHP sanitizers agree on text without surrounding
      whitespace; PHP additionally trims. */
  lemma SanitizersAgree(s: string)
    requires |s| > 0 ==> !IsPhpSpace(s[0]) && !IsPhpSpace(s[|s| - 1])
    ensures SanitizeInput(Some(s)) == Config.SanitizeInput(s)
  {
    TrimOfTrimmed(s);
  }
}
