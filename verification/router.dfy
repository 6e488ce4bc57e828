/** `register/api/index.php`: the `accommodations` and `verify-code` GET
    handlers and the POST `register` validation. Every text parameter goes
    through `sanitizeInput` first; ids are cast with `(int)`. */
module Router {
  import opened Wrappers
  import opened Text
  import opened Numbers
  import opened Forms
  import opened Http
  import opened Seqs
  import Config
  import Html
  import Dates
  import Store

  const InvalidGender := "Invalid gender parameter. Must be \"muz\" or \"zena\"."
  const ServerError := "Server error. Please try again later."

  predicate KnownType(t: string) {
    t == "ucastnik" || t == "veduci" || t == "host"
  }

  /** `sanitizeInput($params[k] ?? $default)`. */
  function Clean(p: Params, k: string, default: string): string {
    Config.SanitizeInput(Field(p, k, default))
  }

  /** The `accommodations` handler: as the live endpoint, but on sanitised
      parameters, so surrounding whitespace is forgiven. */
  function Accommodations(get: Params, db: Store.Db): (r: Reply)
    ensures r.status == 400 <==> Clean(get, "gender", "") != "muz" && Clean(get, "gender", "") != "zena"
    ensures r.status == 400 ==> r.body == Error(InvalidGender)
    ensures r.status != 400 ==> r.status == 200 && r.body.Rooms?
    ensures r.status == 200 ==>
              r.body.rows == Store.AvailableAccommodation(db, Clean(get, "gender", ""),
                               if KnownType(Clean(get, "type", "ucastnik")) then Clean(get, "type", "ucastnik") else "ucastnik")
  {
    var gender := Clean(get, "gender", "");
    var typ := Clean(get, "type", "ucastnik");
    if PhpEmpty(gender) || (gender != "muz" && gender != "zena") then Reply(400, Error(InvalidGender))
    else Reply(200, Rooms(Store.AvailableAccommodation(db, gender, if KnownType(typ) then typ else "ucastnik")))
  }

  /** The `verify-code` handler. */
  function VerifyCode(get: Params, s: Config.Settings): (r: Reply)
    ensures r.status == 200 && r.body.Verdict?
    ensures !r.body.success ==> !r.body.valid
    ensures r.body.success <==> !PhpEmpty(Clean(get, "code", "")) && Clean(get, "type", "") in {"veduci", "host"}
    ensures r.body.valid <==>
              !PhpEmpty(Clean(get, "code", ""))
              && ((Clean(get, "type", "") == "veduci" && Clean(get, "code", "") == s.leaderCode)
                  || (Clean(get, "type", "") == "host" && Clean(get, "code", "") == s.guestCode))
  {
    var code := Clean(get, "code", "");
    var typ := Clean(get, "type", "");
    if PhpEmpty(code) || PhpEmpty(typ) || (typ != "veduci" && typ != "host") then Reply(200, Verdict(false, false))
    else Reply(200, Verdict(true, Config.VerifySecurityCode(code, typ, s)))
  }

  /** A secret holding one of `<`, `>`, `"`, `'` can never be matched: the
      submitted code is escaped before it is compared. */
  lemma MarkupSecretUnreachable(get: Params, s: Config.Settings, i: nat)
    requires i < |s.leaderCode| && Html.IsMarkup(s.leaderCode[i])
    ensures Clean(get, "type", "") == "veduci" ==> !VerifyCode(get, s).body.valid
  {
  }

  /** A value without special characters or surrounding whitespace passes
      `sanitizeInput` unchanged. */
  lemma CleanPlain(p: Params, k: string, default: string, v: string)
    requires Field(p, k, default) == v && Trim(v) == v
    requires forall i | 0 <= i < |v| :: !Html.IsSpecial(v[i])
    ensures Clean(p, k, default) == v
  {
    Html.EscapePlain(v);
  }

  /** A secret without special characters or surrounding whitespace is
      accepted when sent as it is. */
  lemma PlainSecretAccepted(get: Params, s: Config.Settings)
    requires Field(get, "code", "") == s.leaderCode && Field(get, "type", "") == "veduci"
    requires !PhpEmpty(s.leaderCode) && Trim(s.leaderCode) == s.leaderCode
    requires forall i | 0 <= i < |s.leaderCode| :: !Html.IsSpecial(s.leaderCode[i])
    ensures VerifyCode(get, s).body.valid
  {
    CleanPlain(get, "code", "", s.leaderCode);
    TrimOfTrimmed("veduci");
    CleanPlain(get, "type", "", "veduci");
  }

  // -------------------------------------------------------------- register

  /** `(int)` applied to a request value, kept in its decimal form. */
  function CastId(v: string): (r: string)
    ensures IntVal(r) == IntVal(v) && IsNumeric(r)
  {
    IntValShow(IntVal(v));
    ShowIsNumeric(IntVal(v));
    Show(IntVal(v))
  }

  /** Every id of a list cast with `(int)`: a numeric string for the same
      integer, in the same position. */
  function CastIds(vs: seq<string>): (r: seq<string>)
    ensures |r| == |vs|
    ensures forall k | 0 <= k < |vs| :: IsNumeric(r[k]) && IntVal(r[k]) == IntVal(vs[k])
  {
    seq(|vs|, k requires 0 <= k < |vs| => CastId(vs[k]))
  }

  /** The sanitised and cast registration data (lines 107-134). */
  function Collect(post: Params): Store.Registration {
    Store.Registration(
      Clean(post, "meno", ""), Clean(post, "priezvisko", ""), Clean(post, "email", ""),
      Clean(post, "datum_narodenia", ""), Clean(post, "pohlavie", ""),
      Clean(post, "mladez_id", ""), Clean(post, "vlastny_mladez", ""),
      IsSet(post, "prvy_krat"), Clean(post, "poznamka", ""), IsSet(post, "gdpr"),
      Clean(post, "typ", "ucastnik"), CastId(Field(post, "ubytovanie_id", "0")),
      CastIds(List(post, "aktivity")), CastIds(List(post, "alergie")),
      Clean(post, "vlastne_alergie", ""))
  }

  /** The fields `register` requires, in the order they are checked. */
  datatype FieldName = Meno | Priezvisko | Email | DatumNarodenia | Pohlavie | Gdpr

  /** The request key of a required field. */
  function Name(f: FieldName): string {
    match f
    case Meno => "meno"
    case Priezvisko => "priezvisko"
    case Email => "email"
    case DatumNarodenia => "datum_narodenia"
    case Pohlavie => "pohlavie"
    case Gdpr => "gdpr"
  }

  /** What the router refuses a registration for. */
  datatype Problem =
    | Required(field: FieldName)
    | EmailFormat | TooYoung | BadGender | NoConsent | BadCode

  function Message(p: Problem): string {
    match p
    case Required(f) => "Field " + Name(f) + " is required."
    case EmailFormat => "Invalid email format."
    case TooYoung => "Musíte mať aspoň 14 rokov."
    case BadGender => "Gender must be \"muz\" or \"zena\"."
    case NoConsent => "GDPR consent is required."
    case BadCode => "Invalid security code for special registration."
  }

  function Messages(ps: seq<Problem>): (r: seq<string>)
    ensures |r| == |ps| && forall i | 0 <= i < |ps| :: r[i] == Message(ps[i])
  {
    seq(|ps|, i requires 0 <= i < |ps| => Message(ps[i]))
  }

  const RequiredFields: seq<FieldName> := [Meno, Priezvisko, Email, DatumNarodenia, Pohlavie, Gdpr]

  lemma FieldListed(f: FieldName)
    ensures f in RequiredFields
  {
    match f
    case Meno => assert RequiredFields[0] == f;
    case Priezvisko => assert RequiredFields[1] == f;
    case Email => assert RequiredFields[2] == f;
    case DatumNarodenia => assert RequiredFields[3] == f;
    case Pohlavie => assert RequiredFields[4] == f;
    case Gdpr => assert RequiredFields[5] == f;
  }

  /** `empty($data[$field])` for the required fields. */
  predicate Missing(d: Store.Registration, f: FieldName) {
    match f
    case Meno => PhpEmpty(d.meno)
    case Priezvisko => PhpEmpty(d.priezvisko)
    case Email => PhpEmpty(d.email)
    case DatumNarodenia => PhpEmpty(d.datumNarodenia)
    case Pohlavie => PhpEmpty(d.pohlavie)
    case Gdpr => !d.gdpr
  }

  /** One required-field problem per field, in order. */
  function AsProblems(fs: seq<FieldName>): (r: seq<Problem>)
    ensures |r| == |fs|
    ensures forall p | p in r :: p.Required?
    ensures forall f :: Required(f) in r <==> f in fs
  {
    var r := seq(|fs|, i requires 0 <= i < |fs| => Required(fs[i]));
    forall f ensures Required(f) in r <==> f in fs {
      if Required(f) in r {
        var i :| 0 <= i < |r| && r[i] == Required(f);
        assert fs[i] == f;
      }
      if f in fs {
        var i :| 0 <= i < |fs| && fs[i] == f;
        assert r[i] == Required(f);
      }
    }
    r
  }

  function RequiredErrors(d: Store.Registration): (r: seq<Problem>)
    ensures |r| <= |RequiredFields|
    ensures forall p | p in r :: p.Required?
    ensures forall f :: Required(f) in r <==> Missing(d, f)
  {
    var missing := Filter(RequiredFields, (f: FieldName) => Missing(d, f));
    forall f ensures f in missing <==> Missing(d, f) {
      FieldListed(f);
    }
    AsProblems(missing)
  }

  /** The registration type after an unknown one is rewritten. */
  function TypeOf(d: Store.Registration): (t: string)
    ensures KnownType(t)
    ensures KnownType(d.typ) ==> t == d.typ
  {
    if KnownType(d.typ) then d.typ else "ucastnik"
  }

  /** The checks after the age check, in source order (lines 165-185). */
  function LaterErrors(d: Store.Registration, code: string, s: Config.Settings): (r: seq<Problem>)
    ensures BadGender in r <==> d.pohlavie != "muz" && d.pohlavie != "zena"
    ensures NoConsent in r <==> !d.gdpr
    ensures BadCode in r <==> TypeOf(d) != "ucastnik" && !Config.VerifySecurityCode(code, TypeOf(d), s)
    ensures forall p | p in r :: p in [BadGender, NoConsent, BadCode]
  {
    (if d.pohlavie != "muz" && d.pohlavie != "zena" then [BadGender] else [])
    + (if !d.gdpr then [NoConsent] else [])
    + (if TypeOf(d) != "ucastnik" && !Config.VerifySecurityCode(code, TypeOf(d), s) then [BadCode] else [])
  }

  /** The age check: whole years between now and the birth date, in either direction. */
  function AgeErrors(now: Dates.Moment, birth: Dates.Date): (r: seq<Problem>)
    ensures TooYoung in r <==> Dates.DiffYears(now, birth) < 14
    ensures forall p | p in r :: p == TooYoung
  {
    if Dates.DiffYears(now, birth) < 14 then [TooYoung] else []
  }

  /** All problems, or the 500 reply when the birth date cannot be parsed. */
  function Problems(d: Store.Registration, code: string, now: Dates.Moment, validEmail: string -> bool,
                    s: Config.Settings): (r: Result<seq<Problem>, Reply>)
    ensures r.Err? <==> !PhpEmpty(d.datumNarodenia) && Dates.ParseIso(d.datumNarodenia).None?
    ensures r.Err? ==> r.error == Reply(500, Error(ServerError))
  {
    var head := RequiredErrors(d) + (if !PhpEmpty(d.email) && !validEmail(d.email) then [EmailFormat] else []);
    if PhpEmpty(d.datumNarodenia) then Ok(head + LaterErrors(d, code, s))
    else match Dates.ParseIso(d.datumNarodenia)
      case None => Err(Reply(500, Error(ServerError)))
      case Some(birth) => Ok(head + AgeErrors(now, birth) + LaterErrors(d, code, s))
  }

  /** Which problems are reported. */
  lemma ProblemsReported(d: Store.Registration, code: string, now: Dates.Moment, validEmail: string -> bool,
                         s: Config.Settings, p: Problem)
    requires Problems(d, code, now, validEmail, s).Ok?
    ensures p in Problems(d, code, now, validEmail, s).value <==>
              p in RequiredErrors(d)
              || (p == EmailFormat && !PhpEmpty(d.email) && !validEmail(d.email))
              || (p == TooYoung && !PhpEmpty(d.datumNarodenia)
                  && Dates.DiffYears(now, Dates.ParseIso(d.datumNarodenia).value) < 14)
              || p in LaterErrors(d, code, s)
  {
    var head := RequiredErrors(d) + (if !PhpEmpty(d.email) && !validEmail(d.email) then [EmailFormat] else []);
    var r := Problems(d, code, now, validEmail, s).value;
    if PhpEmpty(d.datumNarodenia) {
      assert r == head + LaterErrors(d, code, s);
    } else {
      var birth := Dates.ParseIso(d.datumNarodenia).value;
      assert r == head + AgeErrors(now, birth) + LaterErrors(d, code, s);
    }
  }

  /** The data handed to the database: the type after rewriting. */
  function Normalize(d: Store.Registration): Store.Registration {
    d.(typ := TypeOf(d))
  }

  /** The POST `register` handler: all problems are reported together with
      400, and only a request without any reaches the database. */
  function Register(post: Params, now: Dates.Moment, validEmail: string -> bool, s: Config.Settings,
                    db: Store.Db, f: Store.Faults): (res: (Reply, Store.Db))
    ensures res.0.status != 200 ==> res.1 == db
    ensures res.0.status == 400 ==> res.0.body.Errors? && res.0.body.messages != []
    ensures var d := Collect(post);
      !PhpEmpty(d.datumNarodenia) && Dates.ParseIso(d.datumNarodenia).None? ==>
        res == (Reply(500, Error(ServerError)), db)
    ensures var ps := Problems(Collect(post), Clean(post, "code", ""), now, validEmail, s);
      ps.Ok? && ps.value != [] ==> res == (Reply(400, Errors(Messages(ps.value))), db)
    ensures var stored := Store.RegisterParticipant(db, Normalize(Collect(post)), f);
      Problems(Collect(post), Clean(post, "code", ""), now, validEmail, s) == Ok([]) ==>
        res == (FromOutcome(stored.0), stored.1)
    ensures res.0.status == 200 ==>
              res == (FromOutcome(Store.RegisterParticipant(db, Normalize(Collect(post)), f).0),
                      Store.RegisterParticipant(db, Normalize(Collect(post)), f).1)
  {
    var d := Collect(post);
    match Problems(d, Clean(post, "code", ""), now, validEmail, s)
    case Err(reply) => (reply, db)
    case Ok(ps) =>
      if ps != [] then (Reply(400, Errors(Messages(ps))), db)
      else
        var res := Store.RegisterParticipant(db, Normalize(d), f);
        (FromOutcome(res.0), res.1)
  }

  // ------------------------------------------------------------ properties

  /** A missing consent is reported twice: as a required field and as consent. */
  lemma MissingConsentTwice(d: Store.Registration, code: string, now: Dates.Moment, validEmail: string -> bool,
                            s: Config.Settings)
    requires !d.gdpr && Problems(d, code, now, validEmail, s).Ok?
    ensures Required(Gdpr) in Problems(d, code, now, validEmail, s).value
    ensures NoConsent in Problems(d, code, now, validEmail, s).value
  {
    ProblemsReported(d, code, now, validEmail, s, Required(Gdpr));
    ProblemsReported(d, code, now, validEmail, s, NoConsent);
  }

  /** The age check counts the years between the dates whichever comes first,
      so a birth date fifteen or more years in the future passes it. */
  lemma FutureBirthPasses(now: Dates.Moment, birth: Dates.Date)
    requires birth.year >= now.date.year + 15
    ensures TooYoung !in AgeErrors(now, birth)
  {
  }

  /** `new DateTime()` carries the time of day while the birth date is at
      midnight: a birth date exactly fourteen years ahead is refused from the
      first second of the day on, and accepted only at midnight itself. */
  lemma FourteenYearsAheadRefusedAfterMidnight(now: Dates.Moment, birth: Dates.Date)
    requires birth == Dates.Date(now.date.year + 14, now.date.month, now.date.day)
    ensures TooYoung in AgeErrors(now, birth) <==> now.second > 0
  {
  }

  /** Whitespace around the gender is trimmed away before it is checked. */
  lemma PaddedGenderAccepted(post: Params, w: string)
    requires "pohlavie" in post && post["pohlavie"] == Scalar(" " + w + " ")
    requires w == "muz" || w == "zena"
    ensures Clean(post, "pohlavie", "") == w
  {
    TrimPadded(" ", w, " ");
    Html.EscapePlain(w);
  }
}
