/** `register/api-direct.php`: the live endpoint's `accommodations` and
    `register` cases. Request parameters arrive raw (no sanitising), the
    current date and the `FILTER_VALIDATE_EMAIL` test are parameters. */
module Direct {
  import opened Wrappers
  import opened Text
  import opened Forms
  import opened Http
  import Uuid
  import Dates
  import Store
  import opened Seqs

  const InvalidGender := "Invalid gender parameter. Must be \"muz\" or \"zena\"."
  const MethodNotAllowed := "Method not allowed. Use POST."
  const ServerError := "Server error. Please try again later."
  const TokenMissing := "Pre registráciu vedúceho alebo hosťa je potrebný platný token."
  const TokenInvalid := "Neplatný token pre špeciálnu registráciu."

  /** What a registration can be refused for. */
  datatype Problem =
    | HostNoteRequired | ActivityRequired
    | MenoRequired | PriezviskoRequired | EmailRequired | BirthRequired
    | GenderRequired | GdprRequired | RoomRequired
    | EmailFormat | GroupRequired | TooYoung

  /** The message reported for each problem. */
  function Message(p: Problem): string {
    match p
    case HostNoteRequired => "Pre hostí je poznámka povinná. Prosím, uveďte detaily vášho pobytu."
    case ActivityRequired => "Vyberte aspoň jednu aktivitu."
    case MenoRequired => "Meno je povinné pole."
    case PriezviskoRequired => "Priezvisko je povinné pole."
    case EmailRequired => "Email je povinné pole."
    case BirthRequired => "Dátum narodenia je povinné pole."
    case GenderRequired => "Pohlavie je povinné pole."
    case GdprRequired => "Súhlas s GDPR je povinný."
    case RoomRequired => "Ubytovanie je povinné pole."
    case EmailFormat => "Email nie je v správnom formáte."
    case GroupRequired => "Zadajte názov vášho spoločenstva."
    case TooYoung => "Musíte mať aspoň 14 rokov v tomto kalendárnom roku."
  }

  /** Recovers the problem from its message's length and first letter. */
  function ProblemOf(len: int, first: char): Option<Problem> {
    if len == 67 then Some(HostNoteRequired)
    else if len == 29 then Some(ActivityRequired)
    else if len == 21 then Some(MenoRequired)
    else if len == 27 && first == 'P' then Some(PriezviskoRequired)
    else if len == 22 then Some(EmailRequired)
    else if len == 32 && first == 'D' then Some(BirthRequired)
    else if len == 25 && first == 'P' then Some(GenderRequired)
    else if len == 25 then Some(GdprRequired)
    else if len == 27 then Some(RoomRequired)
    else if len == 32 then Some(EmailFormat)
    else if len == 33 then Some(GroupRequired)
    else if len == 51 then Some(TooYoung)
    else None
  }

  lemma ProblemOfMessage(p: Problem)
    ensures ProblemOf(|Message(p)|, Message(p)[0]) == Some(p)
  {
  }

  /** No two problems share a message, so a reply's messages name its problems. */
  lemma MessagesDistinct(p: Problem, q: Problem)
    requires p != q
    ensures Message(p) != Message(q)
  {
    ProblemOfMessage(p);
    ProblemOfMessage(q);
  }

  function Messages(ps: seq<Problem>): (r: seq<string>)
    ensures |r| == |ps| && forall i | 0 <= i < |ps| :: r[i] == Message(ps[i])
  {
    seq(|ps|, i requires 0 <= i < |ps| => Message(ps[i]))
  }

  predicate KnownType(t: string) {
    t == "ucastnik" || t == "veduci" || t == "host"
  }

  /** The `accommodations` case: gender must be `muz` or `zena`; an unknown
      type lists as a participant. */
  function Accommodations(get: Params, db: Store.Db): (r: Reply)
    ensures r.status == 400 <==> Field(get, "gender", "") != "muz" && Field(get, "gender", "") != "zena"
    ensures r.status == 400 ==> r.body == Error(InvalidGender)
    ensures r.status != 400 ==> r.status == 200 && r.body.Rooms?
    ensures r.status == 200 && KnownType(Field(get, "type", "ucastnik")) ==>
              r.body.rows == Store.AvailableAccommodation(db, Field(get, "gender", ""), Field(get, "type", "ucastnik"))
    ensures r.status == 200 && !KnownType(Field(get, "type", "ucastnik")) ==>
              r.body.rows == Store.AvailableAccommodation(db, Field(get, "gender", ""), "ucastnik")
  {
    var gender := Field(get, "gender", "");
    var typ := Field(get, "type", "ucastnik");
    if PhpEmpty(gender) || (gender != "muz" && gender != "zena") then Reply(400, Error(InvalidGender))
    else Reply(200, Rooms(Store.AvailableAccommodation(db, gender, if KnownType(typ) then typ else "ucastnik")))
  }

  /** The registration data read from `$_POST`, before any check. */
  function Collect(post: Params): Store.Registration {
    Store.Registration(
      Field(post, "meno", ""), Field(post, "priezvisko", ""), Field(post, "email", ""),
      Field(post, "datum_narodenia", ""), Field(post, "pohlavie", ""),
      Field(post, "mladez_id", ""), Field(post, "vlastny_mladez", ""),
      IsSet(post, "prvy_krat") && post["prvy_krat"] == Scalar("on"),
      Field(post, "poznamka", ""), IsSet(post, "gdpr"), Field(post, "typ", "ucastnik"),
      Field(post, "ubytovanie_id", ""), List(post, "aktivity"), List(post, "alergie"),
      Field(post, "vlastne_alergie", ""))
  }

  /** Leaders and guests must send a token shaped like a version-4 UUID. */
  function TokenGate(post: Params): (r: Option<Reply>)
    ensures r.None? <==> !(Field(post, "typ", "ucastnik") in {"veduci", "host"})
                         || (!PhpEmpty(Field(post, "token", "")) && Uuid.IsV4TokenPhp(Field(post, "token", "")))
    ensures r.Some? ==> (r.value == Reply(403, Error(TokenMissing)) <==> PhpEmpty(Field(post, "token", "")))
    ensures r.Some? ==> r.value == Reply(403, Error(TokenMissing)) || r.value == Reply(400, Error(TokenInvalid))
  {
    var typ := Field(post, "typ", "ucastnik");
    var token := Field(post, "token", "");
    if typ != "veduci" && typ != "host" then None
    else if PhpEmpty(token) then Some(Reply(403, Error(TokenMissing)))
    else if !Uuid.IsV4TokenPhp(token) then Some(Reply(400, Error(TokenInvalid)))
    else None
  }

  /** Guest defaults: room 6, group `iny` named `Host` when none was chosen, no activities. */
  function Normalize(d: Store.Registration): (n: Store.Registration)
    ensures d.typ != "host" ==> n == d
    ensures d.typ == "host" ==> n.aktivity == [] && !PhpEmpty(n.ubytovanieId)
    ensures d.typ == "host" && PhpEmpty(d.ubytovanieId) ==> n.ubytovanieId == "6"
    ensures d.typ == "host" && !PhpEmpty(d.ubytovanieId) ==> n.ubytovanieId == d.ubytovanieId
    ensures d.typ == "host" && (PhpEmpty(d.mladezId) || d.mladezId == "iny") ==>
              n.mladezId == "iny" && n.vlastnyMladez == "Host"
    ensures d.typ == "host" && !(PhpEmpty(d.mladezId) || d.mladezId == "iny") ==>
              n.mladezId == d.mladezId && n.vlastnyMladez == d.vlastnyMladez
    ensures n == d.(ubytovanieId := n.ubytovanieId, mladezId := n.mladezId,
                    vlastnyMladez := n.vlastnyMladez, aktivity := n.aktivity)
  {
    if d.typ != "host" then d
    else
      var room := if PhpEmpty(d.ubytovanieId) then "6" else d.ubytovanieId;
      var d1 := d.(ubytovanieId := room, aktivity := []);
      if PhpEmpty(d.mladezId) || d.mladezId == "iny" then d1.(mladezId := "iny", vlastnyMladez := "Host")
      else d1
  }

  /** The messages pushed before the error list is reset (lines 173-184):
      computed from the collected data, never reported. */
  function DiscardedErrors(d: Store.Registration): (r: seq<Problem>)
    ensures HostNoteRequired in r <==> d.typ == "host" && PhpEmpty(d.poznamka)
    ensures ActivityRequired in r <==> d.typ != "host" && d.aktivity == []
  {
    (if d.typ == "host" && PhpEmpty(d.poznamka) then [HostNoteRequired] else [])
    + (if d.typ != "host" && d.aktivity == [] then [ActivityRequired] else [])
  }

  /** The required fields in declaration order; the room comes last. */
  const RequiredOrder: seq<Problem> :=
    [MenoRequired, PriezviskoRequired, EmailRequired, BirthRequired, GenderRequired, GdprRequired, RoomRequired]

  /** The field behind a required-field problem is empty (`empty()`); the
      room is required from everybody but guests. */
  predicate Missing(d: Store.Registration, p: Problem) {
    match p
    case MenoRequired => PhpEmpty(d.meno)
    case PriezviskoRequired => PhpEmpty(d.priezvisko)
    case EmailRequired => PhpEmpty(d.email)
    case BirthRequired => PhpEmpty(d.datumNarodenia)
    case GenderRequired => PhpEmpty(d.pohlavie)
    case GdprRequired => !d.gdpr
    case RoomRequired => d.typ != "host" && PhpEmpty(d.ubytovanieId)
    case _ => false
  }

  /** One problem per empty required field, in declaration order. */
  function RequiredErrors(d: Store.Registration): (r: seq<Problem>)
    ensures |r| <= |RequiredOrder|
    ensures forall p :: p in r <==> p in RequiredOrder && Missing(d, p)
  {
    Filter(RequiredOrder, (p: Problem) => Missing(d, p))
  }

  /** The format and group checks after the required fields. */
  function FormatErrors(d: Store.Registration, validEmail: string -> bool): (r: seq<Problem>)
    ensures EmailFormat in r <==> !PhpEmpty(d.email) && !validEmail(d.email)
    ensures GroupRequired in r <==> d.typ != "host" && d.mladezId == "iny" && PhpEmpty(d.vlastnyMladez)
    ensures forall p | p in r :: p in [EmailFormat, GroupRequired]
  {
    (if !PhpEmpty(d.email) && !validEmail(d.email) then [EmailFormat] else [])
    + (if d.typ != "host" && d.mladezId == "iny" && PhpEmpty(d.vlastnyMladez) then [GroupRequired] else [])
  }

  /** A birth date that can be read: absent, or in the ISO form. */
  predicate Readable(d: Store.Registration) {
    PhpEmpty(d.datumNarodenia) || Dates.ParseIso(d.datumNarodenia).Some?
  }

  /** The age check: fourteen in the current calendar year. */
  function AgeErrors(d: Store.Registration, today: Dates.Date): (r: seq<Problem>)
    requires Readable(d)
    ensures TooYoung in r <==>
              !PhpEmpty(d.datumNarodenia) && Dates.CalendarAge(today, Dates.ParseIso(d.datumNarodenia).value) < 14
    ensures forall p | p in r :: p == TooYoung
  {
    if !PhpEmpty(d.datumNarodenia) && Dates.CalendarAge(today, Dates.ParseIso(d.datumNarodenia).value) < 14
    then [TooYoung] else []
  }

  /** The checks after the reset (lines 207-237). An unparsable birth date
      throws, which the outer handler answers with 500. */
  function FieldErrors(d: Store.Registration, today: Dates.Date, validEmail: string -> bool): (r: Result<seq<Problem>, Reply>)
    ensures r.Err? <==> !Readable(d)
    ensures r.Err? ==> r.error == Reply(500, Error(ServerError))
  {
    if Readable(d) then Ok(RequiredErrors(d) + FormatErrors(d, validEmail) + AgeErrors(d, today))
    else Err(Reply(500, Error(ServerError)))
  }

  /** Every problem reported is a required field, a format or group problem,
      or the age; never one of the discarded ones. */
  lemma FieldErrorsReported(d: Store.Registration, today: Dates.Date, validEmail: string -> bool, p: Problem)
    requires FieldErrors(d, today, validEmail).Ok?
    ensures p in FieldErrors(d, today, validEmail).value <==>
              (p in RequiredOrder && Missing(d, p))
              || (p == EmailFormat && !PhpEmpty(d.email) && !validEmail(d.email))
              || (p == GroupRequired && d.typ != "host" && d.mladezId == "iny" && PhpEmpty(d.vlastnyMladez))
              || (p == TooYoung && !PhpEmpty(d.datumNarodenia)
                  && Dates.CalendarAge(today, Dates.ParseIso(d.datumNarodenia).value) < 14)
  {
    var req, fmt, age := RequiredErrors(d), FormatErrors(d, validEmail), AgeErrors(d, today);
    assert FieldErrors(d, today, validEmail).value == req + fmt + age;
    assert p in req + fmt + age <==> p in req || p in fmt || p in age;
    assert p in fmt <==> (p == EmailFormat && EmailFormat in fmt) || (p == GroupRequired && GroupRequired in fmt);
  }

  /** The discarded problems are none of the checked ones. */
  lemma DiscardedNotChecked(d: Store.Registration, today: Dates.Date, validEmail: string -> bool, p: Problem)
    requires FieldErrors(d, today, validEmail).Ok?
    requires p in DiscardedErrors(d)
    ensures p !in FieldErrors(d, today, validEmail).value
  {
    FieldErrorsReported(d, today, validEmail, p);
  }

  /** Everything after the token gate: normalise, check, and either the
      data to store or the reply that refuses it. */
  function Checked(post: Params, today: Dates.Date, validEmail: string -> bool): (r: Result<Store.Registration, Reply>)
    ensures r.Ok? ==> r.value == Normalize(Collect(post))
    ensures r.Err? ==> r.error.status in {400, 500}
  {
    var d := Normalize(Collect(post));
    match FieldErrors(d, today, validEmail)
    case Err(reply) => Err(reply)
    case Ok(errs) => if errs != [] then Err(Reply(400, Errors(Messages(errs)))) else Ok(d)
  }

  function Validate(post: Params, today: Dates.Date, validEmail: string -> bool): (r: Result<Store.Registration, Reply>)
    ensures TokenGate(post).Some? ==> r == Err(TokenGate(post).value)
    ensures TokenGate(post).None? ==> r == Checked(post, today, validEmail)
  {
    match TokenGate(post)
    case Some(reply) => Err(reply)
    case None => Checked(post, today, validEmail)
  }

  /** The `register` case: only a POST with no validation error reaches the
      database; every other request leaves it untouched. */
  function Register(verb: string, post: Params, today: Dates.Date, validEmail: string -> bool,
                    db: Store.Db, f: Store.Faults): (res: (Reply, Store.Db))
    ensures verb != "POST" ==> res == (Reply(405, Error(MethodNotAllowed)), db)
    ensures verb == "POST" && Validate(post, today, validEmail).Err? ==>
              res == (Validate(post, today, validEmail).error, db)
    ensures verb == "POST" && Validate(post, today, validEmail).Ok? ==>
              var stored := Store.RegisterParticipant(db, Validate(post, today, validEmail).value, f);
              res == (FromOutcome(stored.0), stored.1)
    ensures res.0.status != 200 ==> res.1 == db
  {
    if verb != "POST" then (Reply(405, Error(MethodNotAllowed)), db)
    else match Validate(post, today, validEmail)
      case Err(reply) => (reply, db)
      case Ok(d) =>
        var res := Store.RegisterParticipant(db, d, f);
        (FromOutcome(res.0), res.1)
  }

  // -------------------------------------------------------------- properties

  /** A leader or guest request without a token is refused with 403 before any field is looked at. */
  lemma MissingTokenForbidden(post: Params, today: Dates.Date, validEmail: string -> bool, db: Store.Db, f: Store.Faults)
    requires Field(post, "typ", "ucastnik") in {"veduci", "host"} && PhpEmpty(Field(post, "token", ""))
    ensures Register("POST", post, today, validEmail, db, f) == (Reply(403, Error(TokenMissing)), db)
  {
  }

  /** Any version-4 UUID, in any letter case, passes the token gate. */
  lemma V4TokenPasses(post: Params, u: seq<nat>, today: Dates.Date, validEmail: string -> bool)
    requires Uuid.IsOctets(u) && Uuid.IsVersion4(u)
    requires "token" in post && post["token"] == Scalar(Uuid.Render(u))
    ensures Validate(post, today, validEmail) == Checked(post, today, validEmail)
  {
    Uuid.RenderedV4Accepted(u);
    assert |Uuid.Render(u)| == 36;
  }

  /** The host-note and activity messages are never reported, whatever the request. */
  lemma DiscardedNeverReported(post: Params, today: Dates.Date, validEmail: string -> bool)
    ensures Validate(post, today, validEmail).Err? && Validate(post, today, validEmail).error.body.Errors? ==>
              forall p | p in DiscardedErrors(Collect(post)) :: Message(p) !in Validate(post, today, validEmail).error.body.messages
  {
    var r := Validate(post, today, validEmail);
    if r.Err? && r.error.body.Errors? {
      var d := Normalize(Collect(post));
      var errs := FieldErrors(d, today, validEmail).value;
      assert r.error.body.messages == Messages(errs);
      assert DiscardedErrors(Collect(post)) == DiscardedErrors(d);
      forall p | p in DiscardedErrors(d) ensures Message(p) !in Messages(errs) {
        DiscardedNotChecked(d, today, validEmail, p);
        forall i | 0 <= i < |errs| ensures Messages(errs)[i] != Message(p) {
          MessagesDistinct(errs[i], p);
        }
      }
    }
  }

  /** A registration that meets every checked condition has no problem,
      whatever the discarded checks would have said. */
  lemma NoFieldErrors(d: Store.Registration, today: Dates.Date, validEmail: string -> bool)
    requires !PhpEmpty(d.meno) && !PhpEmpty(d.priezvisko) && !PhpEmpty(d.email) && validEmail(d.email)
    requires !PhpEmpty(d.pohlavie) && d.gdpr && !PhpEmpty(d.ubytovanieId)
    requires !(d.typ != "host" && d.mladezId == "iny" && PhpEmpty(d.vlastnyMladez))
    requires !PhpEmpty(d.datumNarodenia) && Dates.ParseIso(d.datumNarodenia).Some?
    requires Dates.CalendarAge(today, Dates.ParseIso(d.datumNarodenia).value) >= 14
    ensures FieldErrors(d, today, validEmail) == Ok([])
  {
    var errs := FieldErrors(d, today, validEmail).value;
    forall p | true ensures p !in errs {
      FieldErrorsReported(d, today, validEmail, p);
    }
    NoMember(errs);
  }

  /** So a guest with a valid token and no note, or a participant with no
      activity, is accepted once the remaining checks pass. */
  lemma AcceptedDespiteDiscarded(post: Params, today: Dates.Date, validEmail: string -> bool)
    requires TokenGate(post).None?
    requires var d := Normalize(Collect(post));
      && !PhpEmpty(d.meno) && !PhpEmpty(d.priezvisko) && !PhpEmpty(d.email) && validEmail(d.email)
      && !PhpEmpty(d.pohlavie) && d.gdpr && !PhpEmpty(d.ubytovanieId)
      && !(d.typ != "host" && d.mladezId == "iny" && PhpEmpty(d.vlastnyMladez))
      && !PhpEmpty(d.datumNarodenia) && Dates.ParseIso(d.datumNarodenia).Some?
      && Dates.CalendarAge(today, Dates.ParseIso(d.datumNarodenia).value) >= 14
    ensures Validate(post, today, validEmail) == Ok(Normalize(Collect(post)))
  {
    NoFieldErrors(Normalize(Collect(post)), today, validEmail);
  }
}
