/** `register/api/database.php`: the database as finite tables, the three
    listing queries, and `registerParticipant` as a transaction from a
    database state to an outcome and a new state. Statement failures come
    from a fault oracle, one switch per failure the code reacts to. */
module Store {
  import opened Wrappers
  import opened Text
  import opened Numbers
  import opened Seqs

  /** A row of `ubytovanie`: `typ` is a gender (`muz`/`zena`), `spolocne`, `veduci` or `host`. */
  datatype Room = Room(id: int, izba: string, kapacita: int, typ: string)

  /** A row of `aktivity`. */
  datatype Activity = Activity(id: int, nazov: string, den: string, kapacita: int)

  /** A row of `alergie`. */
  datatype Allergy = Allergy(nazov: string, popis: string)

  /** A row of `os_udaje`: gender stored as M/F, type as 1/2/3. */
  datatype Person = Person(
    meno: string, priezvisko: string, mail: string, datumNarodenia: string,
    pohlavie: string, mladez: Option<string>, poznamka: string,
    novy: int, ucastnik: int, gdpr: int)

  /** A row of one of the join tables `os_udaje_aktivity`, `os_udaje_alergie`, `os_udaje_ubytovanie`. */
  datatype Link = Link(person: int, target: int)

  datatype Db = Db(
    persons: map<int, Person>, nextPerson: int,
    groups: map<int, string>,
    allergies: map<int, Allergy>, nextAllergy: int,
    rooms: seq<Room>, activities: seq<Activity>,
    activityLinks: seq<Link>, allergyLinks: seq<Link>, roomLinks: seq<Link>)

  /** Auto-increment counters stay ahead of every stored id. */
  predicate Valid(db: Db) {
    && (forall id | id in db.persons :: id < db.nextPerson)
    && (forall id | id in db.allergies :: id < db.nextAllergy)
  }

  // ---------------------------------------------------------------- listings

  /** Distinct people linked to a room (`COUNT(DISTINCT ouu.os_udaje_id)`). */
  function Occupants(links: seq<Link>, roomId: int): set<int> {
    set l | l in links && l.target == roomId :: l.person
  }

  /** A row of the accommodation listing. */
  datatype RoomRow = RoomRow(id: int, nazov: string, kapacita: int, pohlavie: string, available: int)

  function RoomRowOf(r: Room, links: seq<Link>): RoomRow {
    RoomRow(r.id, r.izba, r.kapacita, r.typ, r.kapacita - |Occupants(links, r.id)|)
  }

  /** The type condition appended to the `HAVING` clause. */
  predicate RoomAdmits(typ: string, gender: string, roomTyp: string) {
    if typ == "ucastnik" then roomTyp == gender || roomTyp == "spolocne"
    else if typ == "veduci" then roomTyp == gender || roomTyp == "spolocne" || roomTyp == "veduci"
    else if typ == "host" then roomTyp == "host"
    else roomTyp == gender || roomTyp == "spolocne"
  }

  function RowsOf(rooms: seq<Room>, links: seq<Link>): (rows: seq<RoomRow>)
    ensures |rows| == |rooms|
    ensures forall k | 0 <= k < |rooms| :: rows[k] == RoomRowOf(rooms[k], links)
  {
    seq(|rooms|, k requires 0 <= k < |rooms| => RoomRowOf(rooms[k], links))
  }

  /** `getAvailableAccommodation($gender, $type)`. */
  function AvailableAccommodation(db: Db, gender: string, typ: string): (r: seq<RoomRow>)
    ensures forall row | row in r :: row.available > 0 && RoomAdmits(typ, gender, row.pohlavie)
    ensures forall row | row in r :: exists k | 0 <= k < |db.rooms| :: row == RoomRowOf(db.rooms[k], db.roomLinks)
    ensures forall k | 0 <= k < |db.rooms| ::
              RoomRowOf(db.rooms[k], db.roomLinks) in r
              <== RoomRowOf(db.rooms[k], db.roomLinks).available > 0 && RoomAdmits(typ, gender, db.rooms[k].typ)
  {
    Filter(RowsOf(db.rooms, db.roomLinks), (row: RoomRow) => row.available > 0 && RoomAdmits(typ, gender, row.pohlavie))
  }

  /** Guests are offered guest rooms only; nobody else is ever offered one
      unless the gender parameter itself is `host`. */
  lemma HostRoomsOnlyForHosts(db: Db, gender: string, typ: string)
    ensures typ == "host" ==> forall row | row in AvailableAccommodation(db, gender, typ) :: row.pohlavie == "host"
    ensures typ != "host" && gender != "host" ==>
              forall row | row in AvailableAccommodation(db, gender, typ) :: row.pohlavie != "host"
  {
  }

  /** Link rows pointing at `target` (`COUNT(*)` in the activity subquery). */
  function Taken(links: seq<Link>, target: int): nat {
    Count(links, (l: Link) => l.target == target)
  }

  datatype ActivityRow = ActivityRow(id: int, nazov: string, den: string, kapacita: int, obsadene: int, available: int)

  function ActivityRowOf(a: Activity, links: seq<Link>): ActivityRow {
    var taken := Taken(links, a.id);
    ActivityRow(a.id, a.nazov, a.den, a.kapacita, taken, a.kapacita - taken)
  }

  function ActivityRows(acts: seq<Activity>, links: seq<Link>): (rows: seq<ActivityRow>)
    ensures |rows| == |acts|
    ensures forall k | 0 <= k < |acts| :: rows[k] == ActivityRowOf(acts[k], links)
  {
    seq(|acts|, k requires 0 <= k < |acts| => ActivityRowOf(acts[k], links))
  }

  /** `getAvailableActivities()`: activities with at least one free place. */
  function AvailableActivities(db: Db): (r: seq<ActivityRow>)
    ensures forall row | row in r :: row.available > 0 && row.available == row.kapacita - row.obsadene
    ensures forall row | row in r ::
              exists k | 0 <= k < |db.activities| :: row == ActivityRowOf(db.activities[k], db.activityLinks)
    ensures forall k | 0 <= k < |db.activities| ::
              ActivityRowOf(db.activities[k], db.activityLinks) in r
              <== db.activities[k].kapacita > Taken(db.activityLinks, db.activities[k].id)
  {
    Filter(ActivityRows(db.activities, db.activityLinks), (row: ActivityRow) => row.available > 0)
  }

  /** The name of the catch-all allergy the listing hides. */
  const OtherAllergy := "iné"

  /** How the server compares the names in `WHERE nazov != 'iné'`: exactly
      (a binary collation), or as MySQL's default `utf8_general_ci`, which the
      connection's `set_charset("utf8")` selects unless the table says
      otherwise. */
  datatype Collation = Binary | GeneralCi

  /** A character as `utf8_general_ci` weighs it, for the letters of the
      Slovak alphabet: case and accents are ignored. */
  function Fold(c: char): (r: char)
    ensures 'A' <= c <= 'Z' ==> r == LowerChar(c)
    ensures 'a' <= c <= 'z' ==> r == c
  {
    match c
    case 'á' => 'a' case 'ä' => 'a' case 'Á' => 'a' case 'Ä' => 'a'
    case 'č' => 'c' case 'Č' => 'c' case 'ď' => 'd' case 'Ď' => 'd'
    case 'é' => 'e' case 'É' => 'e' case 'í' => 'i' case 'Í' => 'i'
    case 'ĺ' => 'l' case 'ľ' => 'l' case 'Ĺ' => 'l' case 'Ľ' => 'l'
    case 'ň' => 'n' case 'Ň' => 'n' case 'ó' => 'o' case 'ô' => 'o'
    case 'Ó' => 'o' case 'Ô' => 'o' case 'ŕ' => 'r' case 'Ŕ' => 'r'
    case 'š' => 's' case 'Š' => 's' case 'ť' => 't' case 'Ť' => 't'
    case 'ú' => 'u' case 'Ú' => 'u' case 'ý' => 'y' case 'Ý' => 'y'
    case 'ž' => 'z' case 'Ž' => 'z'
    case _ => LowerChar(c)
  }

  /** Whether two names compare equal under a collation. */
  predicate SameName(coll: Collation, a: string, b: string) {
    match coll
    case Binary => a == b
    case GeneralCi => |a| == |b| && forall i | 0 <= i < |a| :: Fold(a[i]) == Fold(b[i])
  }

  /** `getAllergies()`: every allergy except the one named `iné`, as the
      collation compares names. */
  function Allergies(db: Db, coll: Collation): (r: map<int, Allergy>)
    ensures forall id :: id in r <==> id in db.allergies && !SameName(coll, db.allergies[id].nazov, OtherAllergy)
    ensures forall id | id in r :: r[id] == db.allergies[id]
  {
    map id | id in db.allergies && !SameName(coll, db.allergies[id].nazov, OtherAllergy) :: db.allergies[id]
  }

  /** The catch-all name is hidden under either collation; under the
      case- and accent-insensitive one, so is any spelling of it that
      differs only in case and accents. */
  lemma OtherAllergyHidden(coll: Collation)
    ensures SameName(coll, OtherAllergy, OtherAllergy)
    ensures SameName(GeneralCi, "Ine", OtherAllergy) && SameName(GeneralCi, "INE", OtherAllergy)
    ensures !SameName(Binary, "Ine", OtherAllergy)
  {
    assert "Ine"[2] != OtherAllergy[2];
  }

  // ------------------------------------------------------------ registration

  /** The data `registerParticipant` receives from either PHP endpoint. Ids
      are kept as the strings PHP holds; an integer id travels as its decimal form. */
  datatype Registration = Registration(
    meno: string, priezvisko: string, email: string, datumNarodenia: string,
    pohlavie: string, mladezId: string, vlastnyMladez: string, prvyKrat: bool,
    poznamka: string, gdpr: bool, typ: string, ubytovanieId: string,
    aktivity: seq<string>, alergie: seq<string>, vlastneAlergie: string)

  /** Which statements fail (true = fails). Index sets name positions in the
      activity and allergy lists whose single insert fails. */
  datatype Faults = Faults(
    checkPrepare: bool, checkExecute: bool,
    groupPrepare: bool,
    personPrepare: bool, personBind: bool, personExecute: bool,
    activityPrepare: bool, activityExecute: set<nat>,
    allergyPrepare: bool, allergyExecute: set<nat>,
    customInsert: bool, customLink: bool,
    roomPrepare: bool, roomExecute: bool)

  const NoFaults := Faults(false, false, false, false, false, false, false, {}, false, {}, false, false, false, false)

  /** How `registerParticipant` ends. Each explicit refusal branch closes the
      connection and returns its error; the `finally` block then closes the
      connection a second time. In PHP 8 that second `close()` throws an
      `Error` ("mysqli object is already closed"), which is no `Exception`:
      no `catch` in the function or in the endpoints handles it, the request
      dies, and the refusal text (kept here as `refusal`) is never sent.
      Nothing was committed, so nothing is stored. */
  datatype Outcome = Registered(id: int) | Aborted(refusal: string)

  const PrepareFailed := "Database error: Failed to prepare statement"
  const EmailInUse := "Email je už použitý. Prosím, použite iný email alebo kontaktujte organizátorov."
  const BindFailed := "Database error: Failed to bind parameters"
  const SaveFailed := "Failed to save registration data. Please try again."
  const ActivitiesFailed := "Database error: Failed to save activities"
  const AllergiesFailed := "Database error: Failed to save allergies"
  const AccommodationFailed := "Database error: Failed to save accommodation"

  /** The guest room and the guest group name used when a guest gives none. */
  const HostRoom := 6
  const HostGroup := "Host"

  predicate EmailTaken(db: Db, email: string) {
    exists id | id in db.persons :: db.persons[id].mail == email
  }

  /** Registration type to the stored `ucastnik` number. */
  function TypeCode(typ: string): int {
    if typ == "veduci" then 2 else if typ == "host" then 3 else 1
  }

  /** The stored number read back as a type name. */
  function TypeName(code: int): string {
    if code == 2 then "veduci" else if code == 3 then "host" else "ucastnik"
  }

  /** Every type survives storage; an unknown type is stored as a participant. */
  lemma TypeCodeRoundTrip(typ: string)
    ensures TypeCode(typ) in {1, 2, 3}
    ensures typ in {"ucastnik", "veduci", "host"} ==> TypeName(TypeCode(typ)) == typ
    ensures typ !in {"ucastnik", "veduci", "host"} ==> TypeCode(typ) == TypeCode("ucastnik")
  {
  }

  /** `muz` is stored as M, anything else as F. */
  function GenderCode(pohlavie: string): string {
    if pohlavie == "muz" then "M" else "F"
  }

  lemma GenderCodeRoundTrip(pohlavie: string)
    ensures GenderCode(pohlavie) in {"M", "F"}
    ensures pohlavie in {"muz", "zena"} ==> (if GenderCode(pohlavie) == "M" then "muz" else "zena") == pohlavie
  {
  }

  /** `empty()` of a possibly null string. */
  predicate EmptyOpt(v: Option<string>) {
    v.None? || PhpEmpty(v.value)
  }

  /** The group name stored with the person, before the guest default: a
      chosen group is looked up by id (null when missing or when the lookup
      cannot be prepared); otherwise the free-text name, or null. */
  function GroupName(db: Db, d: Registration, lookupFails: bool): (g: Option<string>)
    ensures !PhpEmpty(d.mladezId) && d.mladezId != "iny" ==>
              g == (if !lookupFails && IntVal(d.mladezId) in db.groups then Some(db.groups[IntVal(d.mladezId)]) else None)
    ensures (PhpEmpty(d.mladezId) || d.mladezId == "iny") ==>
              g == (if PhpEmpty(d.vlastnyMladez) then None else Some(d.vlastnyMladez))
  {
    if !PhpEmpty(d.mladezId) && d.mladezId != "iny" then
      if !lookupFails && IntVal(d.mladezId) in db.groups then Some(db.groups[IntVal(d.mladezId)]) else None
    else if !PhpEmpty(d.vlastnyMladez) then Some(d.vlastnyMladez)
    else None
  }

  /** The stored group: for a guest an empty name becomes `Host`. */
  function StoredGroup(db: Db, d: Registration, lookupFails: bool): (g: Option<string>)
    ensures d.typ == "host" ==> !EmptyOpt(g)
    ensures d.typ != "host" ==> g == GroupName(db, d, lookupFails)
  {
    var g := GroupName(db, d, lookupFails);
    if d.typ == "host" && EmptyOpt(g) then Some(HostGroup) else g
  }

  /** The `os_udaje` row written for `d`. */
  function PersonOf(db: Db, d: Registration, f: Faults): Person {
    Person(d.meno, d.priezvisko, d.email, d.datumNarodenia, GenderCode(d.pohlavie),
           StoredGroup(db, d, f.groupPrepare), d.poznamka,
           if d.prvyKrat then 1 else 0, TypeCode(d.typ), 1)
  }

  /** The accommodation id after the guest default. */
  function RoomIdOf(d: Registration): string {
    if d.typ == "host" && PhpEmpty(d.ubytovanieId) then "6" else d.ubytovanieId
  }

  /** One link row per id, in order, except at the positions in `skip`. */
  function LinkRows(pid: int, ids: seq<string>, skip: set<nat>): (r: seq<Link>)
    ensures |r| <= |ids|
    ensures forall l | l in r :: l.person == pid
  {
    if ids == [] then []
    else
      var last := |ids| - 1;
      LinkRows(pid, ids[..last], skip) + (if last in skip then [] else [Link(pid, IntVal(ids[last]))])
  }

  /** Every id at a position not skipped gets its link. */
  lemma {:induction false} LinkRowsComplete(pid: int, ids: seq<string>, skip: set<nat>, k: nat)
    requires k < |ids| && k !in skip
    ensures Link(pid, IntVal(ids[k])) in LinkRows(pid, ids, skip)
  {
    var last := |ids| - 1;
    if k < last {
      LinkRowsComplete(pid, ids[..last], skip, k);
      assert ids[..last][k] == ids[k];
    }
  }

  /** Every link written points at an id from a position not skipped. */
  lemma {:induction false} LinkRowsSound(pid: int, ids: seq<string>, skip: set<nat>, l: Link)
    requires l in LinkRows(pid, ids, skip)
    ensures exists k | 0 <= k < |ids| && k !in skip :: l.target == IntVal(ids[k])
  {
    var last := |ids| - 1;
    if l in LinkRows(pid, ids[..last], skip) {
      LinkRowsSound(pid, ids[..last], skip, l);
      var k :| 0 <= k < last && k !in skip && l.target == IntVal(ids[..last][k]);
      assert ids[..last][k] == ids[k];
    } else {
      assert l.target == IntVal(ids[last]);
    }
  }

  /** With nothing skipped the links are exactly the ids, in order. */
  lemma {:induction false} LinkRowsExact(pid: int, ids: seq<string>)
    ensures |LinkRows(pid, ids, {})| == |ids|
    ensures forall k | 0 <= k < |ids| :: LinkRows(pid, ids, {})[k] == Link(pid, IntVal(ids[k]))
  {
    if ids != [] {
      var last := |ids| - 1;
      var prev := LinkRows(pid, ids[..last], {});
      LinkRowsExact(pid, ids[..last]);
      var rows := LinkRows(pid, ids, {});
      assert rows == prev + [Link(pid, IntVal(ids[last]))];
      forall k | 0 <= k < |ids| ensures rows[k] == Link(pid, IntVal(ids[k])) {
        if k < last {
          assert ids[..last][k] == ids[k];
          assert rows[k] == prev[k];
        }
      }
    }
  }

  /** Positions of ids `is_numeric` rejects; no allergy link is written for them. */
  function NonNumeric(ids: seq<string>): (s: set<nat>)
    ensures forall k :: k in s <==> 0 <= k < |ids| && !IsNumeric(ids[k])
  {
    set k: nat | k < |ids| && !IsNumeric(ids[k])
  }

  /** The activity step: one link per chosen activity, none for a guest;
      a link whose statement fails to run is skipped. */
  function LinkActivities(db: Db, pid: int, d: Registration, f: Faults): (r: Db)
    ensures r == db.(activityLinks := r.activityLinks)
  {
    if |d.aktivity| > 0 && d.typ != "host"
    then db.(activityLinks := db.activityLinks + LinkRows(pid, d.aktivity, f.activityExecute))
    else db
  }

  /** The allergy step: one link per allergy id `is_numeric` accepts; a
      link whose statement fails to run is skipped. */
  function LinkAllergies(db: Db, pid: int, d: Registration, f: Faults): (r: Db)
    ensures r == db.(allergyLinks := r.allergyLinks)
  {
    if |d.alergie| > 0
    then db.(allergyLinks := db.allergyLinks + LinkRows(pid, d.alergie, f.allergyExecute + NonNumeric(d.alergie)))
    else db
  }

  /** The custom-allergy step: a new `Ine` allergy row and its link; its
      failures are logged only and never abort the transaction. */
  function AddCustomAllergy(db: Db, pid: int, text: string, f: Faults): (r: Db)
    ensures r.persons == db.persons && r.nextPerson == db.nextPerson && r.groups == db.groups
    ensures r.rooms == db.rooms && r.activities == db.activities
    ensures r.activityLinks == db.activityLinks && r.roomLinks == db.roomLinks
    ensures r.nextAllergy >= db.nextAllergy
    ensures forall id | id in r.allergies :: id in db.allergies || id == db.nextAllergy
    ensures !PhpEmpty(text) && !f.customInsert ==>
              db.nextAllergy in r.allergies && r.allergies[db.nextAllergy] == Allergy("Ine", text)
    ensures PhpEmpty(text) || f.customInsert ==> r == db
  {
    if PhpEmpty(text) || f.customInsert then db
    else
      var aid := db.nextAllergy;
      var db1 := db.(allergies := db.allergies[aid := Allergy("Ine", text)], nextAllergy := aid + 1);
      if f.customLink then db1 else db1.(allergyLinks := db1.allergyLinks + [Link(pid, aid)])
  }

  /** The accommodation step, after the activity and allergy steps; `None`
      when the statement cannot be prepared for a given room id. */
  function AddRoomLink(db: Db, pid: int, d: Registration, f: Faults): (r: Option<Db>)
    ensures r.None? <==> !PhpEmpty(RoomIdOf(d)) && f.roomPrepare
    ensures r.Some? ==> r.value == db.(roomLinks := r.value.roomLinks)
    ensures r.Some? && !f.roomPrepare && !f.roomExecute && !PhpEmpty(RoomIdOf(d)) ==>
              r.value.roomLinks == db.roomLinks + [Link(pid, IntVal(RoomIdOf(d)))]
    ensures r.Some? && PhpEmpty(RoomIdOf(d)) ==> r.value == db
  {
    var room := RoomIdOf(d);
    if !PhpEmpty(room) then
      if f.roomPrepare then None
      else if f.roomExecute then Some(db)
      else Some(db.(roomLinks := db.roomLinks + [Link(pid, IntVal(room))]))
    else if d.typ == "host" then
      if f.roomPrepare || f.roomExecute then Some(db)
      else Some(db.(roomLinks := db.roomLinks + [Link(pid, HostRoom)]))
    else Some(db)
  }

  /** `registerParticipant($data)`. Every abort leaves the database as it was.
      The address check counts the rows its query returns; when the query
      cannot run, `get_result()` gives false, the row count reads as null,
      and the registration goes on as if the address were free. */
  function RegisterParticipant(db: Db, d: Registration, f: Faults): (res: (Outcome, Db))
    ensures res.0.Aborted? ==> res.1 == db
    ensures EmailTaken(db, d.email) && !f.checkExecute ==> res.0.Aborted?
    ensures res.0.Registered? ==> res.0.id == db.nextPerson && res.1.nextPerson == db.nextPerson + 1
    ensures res.0.Registered? ==> res.1.persons == db.persons[db.nextPerson := PersonOf(db, d, f)]
  {
    if f.checkPrepare then (Aborted(PrepareFailed), db)
    else if !f.checkExecute && EmailTaken(db, d.email) then (Aborted(EmailInUse), db)
    else if f.personPrepare then (Aborted(PrepareFailed), db)
    else if f.personBind then (Aborted(BindFailed), db)
    else if f.personExecute then (Aborted(SaveFailed), db)
    else
      var pid := db.nextPerson;
      var db1 := db.(persons := db.persons[pid := PersonOf(db, d, f)], nextPerson := pid + 1);
      var aktivity := if d.typ == "host" then [] else d.aktivity;
      var withActivities := |aktivity| > 0 && d.typ != "host";
      if withActivities && f.activityPrepare then (Aborted(ActivitiesFailed), db)
      else
        var db2 := LinkActivities(db1, pid, d, f);
        if |d.alergie| > 0 && f.allergyPrepare then (Aborted(AllergiesFailed), db)
        else
          var db3 := LinkAllergies(db2, pid, d, f);
          var db4 := AddCustomAllergy(db3, pid, d.vlastneAlergie, f);
          match AddRoomLink(db4, pid, d, f)
          case None => (Aborted(AccommodationFailed), db)
          case Some(db5) => (Registered(pid), db5)
  }

  // -------------------------------------------------------------- properties

  /** A successful registration takes a fresh id and keeps the counters ahead. */
  lemma RegisterKeepsValid(db: Db, d: Registration, f: Faults)
    requires Valid(db)
    ensures RegisterParticipant(db, d, f).0.Registered? ==>
              RegisterParticipant(db, d, f).0.id !in db.persons && Valid(RegisterParticipant(db, d, f).1)
  {
  }

  /** The address just registered blocks a second registration with it,
      which ends in the address-taken branch (and so in the fatal error of
      the second `close()`) unless the check itself fails. */
  lemma SecondRegistrationAborted(db: Db, d: Registration, e: Registration, f: Faults, g: Faults)
    requires RegisterParticipant(db, d, f).0.Registered?
    requires e.email == d.email && !g.checkExecute
    ensures RegisterParticipant(RegisterParticipant(db, d, f).1, e, g).0.Aborted?
    ensures RegisterParticipant(RegisterParticipant(db, d, f).1, e, g).1 == RegisterParticipant(db, d, f).1
    ensures !g.checkPrepare ==> RegisterParticipant(RegisterParticipant(db, d, f).1, e, g).0 == Aborted(EmailInUse)
  {
    var res := RegisterParticipant(db, d, f);
    var pid := db.nextPerson;
    assert pid in res.1.persons && res.1.persons[pid].mail == e.email;
  }

  /** Without faults a registration succeeds exactly when the address is free. */
  lemma RegisterSucceedsIffFree(db: Db, d: Registration)
    ensures RegisterParticipant(db, d, NoFaults).0.Registered? <==> !EmailTaken(db, d.email)
  {
  }

  /** When the address-check query fails to run, a taken address is
      registered again: afterwards two people share it. */
  lemma FailedCheckAdmitsDuplicate(db: Db, d: Registration)
    requires Valid(db) && EmailTaken(db, d.email)
    ensures RegisterParticipant(db, d, NoFaults.(checkExecute := true)).0.Registered?
    ensures var db' := RegisterParticipant(db, d, NoFaults.(checkExecute := true)).1;
      exists id | id in db'.persons && id != db.nextPerson :: db'.persons[id].mail == d.email
    ensures RegisterParticipant(db, d, NoFaults.(checkExecute := true)).1.persons[db.nextPerson].mail == d.email
  {
    var id :| id in db.persons && db.persons[id].mail == d.email;
    var db' := RegisterParticipant(db, d, NoFaults.(checkExecute := true)).1;
    assert id in db'.persons && id != db.nextPerson && db'.persons[id].mail == d.email;
  }

  /** A guest is linked to no activity and, when the room is left empty, to room 6. */
  lemma HostRegistration(db: Db, d: Registration)
    requires d.typ == "host" && !EmailTaken(db, d.email)
    ensures RegisterParticipant(db, d, NoFaults).0.Registered?
    ensures RegisterParticipant(db, d, NoFaults).1.activityLinks == db.activityLinks
    ensures PhpEmpty(d.ubytovanieId) ==>
              RegisterParticipant(db, d, NoFaults).1.roomLinks == db.roomLinks + [Link(db.nextPerson, HostRoom)]
    ensures !EmptyOpt(RegisterParticipant(db, d, NoFaults).1.persons[db.nextPerson].mladez)
  {
    var res := RegisterParticipant(db, d, NoFaults);
    assert RoomIdOf(d) != "" && !PhpEmpty(RoomIdOf(d));
    assert PhpEmpty(d.ubytovanieId) ==> IntVal(RoomIdOf(d)) == HostRoom by {
      if PhpEmpty(d.ubytovanieId) {
        IntValShow(6);
        assert Show(6) == "6";
      }
    }
  }

  /** Without faults every chosen activity is linked to the new person, in
      order and nothing more; every numeric allergy id is linked too, after
      the allergy links already stored. */
  lemma FaultFreeLinks(db: Db, d: Registration)
    requires !EmailTaken(db, d.email) && d.typ != "host"
    ensures var db' := RegisterParticipant(db, d, NoFaults).1;
      && db'.activityLinks == db.activityLinks + LinkRows(db.nextPerson, d.aktivity, {})
      && db'.allergyLinks[..|db.allergyLinks|] == db.allergyLinks
      && (forall k | 0 <= k < |d.alergie| && IsNumeric(d.alergie[k]) ::
            Link(db.nextPerson, IntVal(d.alergie[k])) in db'.allergyLinks)
  {
    var pid := db.nextPerson;
    var db' := RegisterParticipant(db, d, NoFaults).1;
    forall k | 0 <= k < |d.alergie| && IsNumeric(d.alergie[k])
      ensures Link(pid, IntVal(d.alergie[k])) in db'.allergyLinks
    {
      LinkRowsComplete(pid, d.alergie, {} + NonNumeric(d.alergie), k);
    }
  }

  /** A room id is linked exactly when one is chosen (or defaulted for a
      guest), and the link points at that room. */
  lemma RoomLinkIff(db: Db, d: Registration)
    requires !EmailTaken(db, d.email)
    ensures var db' := RegisterParticipant(db, d, NoFaults).1;
      (|db'.roomLinks| > |db.roomLinks| <==> !PhpEmpty(RoomIdOf(d)))
    ensures var db' := RegisterParticipant(db, d, NoFaults).1;
      db'.roomLinks == db.roomLinks + (if PhpEmpty(RoomIdOf(d)) then [] else [Link(db.nextPerson, IntVal(RoomIdOf(d)))])
  {
  }

  /** The person row and its activity and allergy links, as a fault-free
      registration of `d` writes them. */
  function Linked(db: Db, d: Registration): Db {
    var pid := db.nextPerson;
    db.(persons := db.persons[pid := PersonOf(db, d, NoFaults)], nextPerson := pid + 1,
        activityLinks := db.activityLinks + (if d.typ == "host" then [] else LinkRows(pid, d.aktivity, {})),
        allergyLinks := db.allergyLinks + LinkRows(pid, d.alergie, NonNumeric(d.alergie)))
  }

  /** The state a fault-free registration of `d` commits: the linked person,
      the custom allergy when a text is given, and the room link. */
  function Committed(db: Db, d: Registration): Db {
    var pid := db.nextPerson;
    var db3 := Linked(db, d);
    var db4 := if PhpEmpty(d.vlastneAlergie) then db3
      else db3.(allergies := db3.allergies[db3.nextAllergy := Allergy("Ine", d.vlastneAlergie)],
                nextAllergy := db3.nextAllergy + 1, allergyLinks := db3.allergyLinks + [Link(pid, db3.nextAllergy)]);
    db4.(roomLinks := db4.roomLinks + (if PhpEmpty(RoomIdOf(d)) then [] else [Link(pid, IntVal(RoomIdOf(d)))]))
  }

  /** The fault-free path through `registerParticipant`, step by step. */
  lemma FaultFreeResult(db: Db, d: Registration)
    requires !EmailTaken(db, d.email)
    ensures RegisterParticipant(db, d, NoFaults) == (Registered(db.nextPerson), Committed(db, d))
  {
    FaultFreeSteps(db, d);
  }

  /** The four steps after the person insert, composed without faults. */
  lemma FaultFreeSteps(db: Db, d: Registration)
    ensures var pid := db.nextPerson;
      var db1 := db.(persons := db.persons[pid := PersonOf(db, d, NoFaults)], nextPerson := pid + 1);
      var db4 := AddCustomAllergy(LinkAllergies(LinkActivities(db1, pid, d, NoFaults), pid, d, NoFaults), pid, d.vlastneAlergie, NoFaults);
      AddRoomLink(db4, pid, d, NoFaults) == Some(Committed(db, d))
  {
    var pid := db.nextPerson;
    LinkedSteps(db, d);
    CustomStep(Linked(db, d), pid, d.vlastneAlergie);
    RoomStep(AddCustomAllergy(Linked(db, d), pid, d.vlastneAlergie, NoFaults), pid, d);
  }

  /** The activity and allergy steps after the person insert, without faults. */
  lemma LinkedSteps(db: Db, d: Registration)
    ensures var pid := db.nextPerson;
      var db1 := db.(persons := db.persons[pid := PersonOf(db, d, NoFaults)], nextPerson := pid + 1);
      LinkAllergies(LinkActivities(db1, pid, d, NoFaults), pid, d, NoFaults) == Linked(db, d)
  {
    var pid := db.nextPerson;
    var db1 := db.(persons := db.persons[pid := PersonOf(db, d, NoFaults)], nextPerson := pid + 1);
    ActivityStep(db1, pid, d);
    AllergyStep(LinkActivities(db1, pid, d, NoFaults), pid, d);
  }

  /** Without faults the activity step links every chosen activity of a
      participant and none of a guest. */
  lemma ActivityStep(db: Db, pid: int, d: Registration)
    ensures LinkActivities(db, pid, d, NoFaults) ==
      db.(activityLinks := db.activityLinks + (if d.typ == "host" then [] else LinkRows(pid, d.aktivity, {})))
  {
    assert db.activityLinks + [] == db.activityLinks;
  }

  /** Without faults the allergy step links every `is_numeric` allergy id. */
  lemma AllergyStep(db: Db, pid: int, d: Registration)
    ensures LinkAllergies(db, pid, d, NoFaults) ==
      db.(allergyLinks := db.allergyLinks + LinkRows(pid, d.alergie, NonNumeric(d.alergie)))
  {
    assert NoFaults.allergyExecute + NonNumeric(d.alergie) == NonNumeric(d.alergie);
    assert db.allergyLinks + [] == db.allergyLinks;
  }

  /** Without faults the accommodation step links the room the registrant
      chose, or room 6 for a guest who chose none. */
  lemma RoomStep(db: Db, pid: int, d: Registration)
    ensures AddRoomLink(db, pid, d, NoFaults) ==
      Some(db.(roomLinks := db.roomLinks + (if PhpEmpty(RoomIdOf(d)) then [] else [Link(pid, IntVal(RoomIdOf(d)))])))
  {
    assert d.typ == "host" ==> RoomIdOf(d) != "" && RoomIdOf(d) != "0";
    assert db.roomLinks + [] == db.roomLinks;
  }

  /** Without faults the custom-allergy step adds the `Ine` row and its link
      exactly when a text is given. */
  lemma CustomStep(db: Db, pid: int, text: string)
    ensures AddCustomAllergy(db, pid, text, NoFaults) ==
      if PhpEmpty(text) then db
      else db.(allergies := db.allergies[db.nextAllergy := Allergy("Ine", text)],
               nextAllergy := db.nextAllergy + 1, allergyLinks := db.allergyLinks + [Link(pid, db.nextAllergy)])
  {
  }

  /** The state a fault-free registration commits, table by table: the
      person under the next id, one activity link per chosen activity (none
      for a guest), one allergy link per `is_numeric` allergy id, the custom
      allergy row and its link when a text is given, and the room link;
      the groups, rooms and activities are untouched. */
  lemma CommittedRows(db: Db, d: Registration)
    requires !EmailTaken(db, d.email)
    ensures var res := RegisterParticipant(db, d, NoFaults);
      var pid := db.nextPerson;
      var custom := !PhpEmpty(d.vlastneAlergie);
      && res.0 == Registered(pid)
      && res.1.persons == db.persons[pid := PersonOf(db, d, NoFaults)]
      && res.1.nextPerson == pid + 1
      && res.1.groups == db.groups && res.1.rooms == db.rooms && res.1.activities == db.activities
      && res.1.activityLinks == db.activityLinks + (if d.typ == "host" then [] else LinkRows(pid, d.aktivity, {}))
      && res.1.allergyLinks == db.allergyLinks + LinkRows(pid, d.alergie, NonNumeric(d.alergie))
                               + (if custom then [Link(pid, db.nextAllergy)] else [])
      && res.1.allergies == (if custom then db.allergies[db.nextAllergy := Allergy("Ine", d.vlastneAlergie)] else db.allergies)
      && res.1.nextAllergy == (if custom then db.nextAllergy + 1 else db.nextAllergy)
      && res.1.roomLinks == db.roomLinks + (if PhpEmpty(RoomIdOf(d)) then [] else [Link(pid, IntVal(RoomIdOf(d)))])
  {
    FaultFreeResult(db, d);
  }

  /** The links appended after `prior` are the numeric ids' rows and the
      custom row's link. */
  lemma AppendedAllergyLink(prior: seq<Link>, links: seq<Link>, pid: int, ids: seq<string>, custom: seq<Link>, aid: int, l: Link)
    requires links == prior + LinkRows(pid, ids, NonNumeric(ids)) + custom
    requires forall c | c in custom :: c == Link(pid, aid)
    requires l in links[|prior|..]
    ensures l.person == pid
    ensures l.target == aid || exists k | 0 <= k < |ids| && IsNumeric(ids[k]) :: l.target == IntVal(ids[k])
  {
    var rows := LinkRows(pid, ids, NonNumeric(ids));
    assert links[|prior|..] == rows + custom;
    if l in rows {
      LinkRowsSound(pid, ids, NonNumeric(ids), l);
    }
  }

  /** Without faults no allergy id that `is_numeric` rejects is linked:
      every new allergy link is for a numeric id or for the custom row. */
  lemma NonNumericAllergyUnlinked(db: Db, d: Registration, l: Link)
    requires !EmailTaken(db, d.email)
    requires l in RegisterParticipant(db, d, NoFaults).1.allergyLinks[|db.allergyLinks|..]
    ensures l.person == db.nextPerson
    ensures l.target == db.nextAllergy
            || exists k | 0 <= k < |d.alergie| && IsNumeric(d.alergie[k]) :: l.target == IntVal(d.alergie[k])
  {
    CommittedRows(db, d);
    var custom := if !PhpEmpty(d.vlastneAlergie) then [Link(db.nextPerson, db.nextAllergy)] else [];
    AppendedAllergyLink(db.allergyLinks, RegisterParticipant(db, d, NoFaults).1.allergyLinks,
                        db.nextPerson, d.alergie, custom, db.nextAllergy, l);
  }


  /** A custom allergy is stored under the name `Ine` and linked to the
      person. Whether later registrants are offered it depends on the
      collation: an exact comparison lists it, while the default
      case- and accent-insensitive one takes `Ine` for `iné` and hides it. */
  lemma CustomAllergyListed(db: Db, d: Registration, coll: Collation)
    requires Valid(db) && !EmailTaken(db, d.email) && !PhpEmpty(d.vlastneAlergie)
    ensures var db' := RegisterParticipant(db, d, NoFaults).1;
      && Link(db.nextPerson, db.nextAllergy) in db'.allergyLinks
      && (db.nextAllergy in Allergies(db', coll) <==> coll == Binary)
      && (coll == Binary ==> Allergies(db', coll)[db.nextAllergy] == Allergy("Ine", d.vlastneAlergie))
  {
    OtherAllergyHidden(coll);
  }

  /** When only the link fails, the custom allergy row stays without a link
      and the registration still succeeds. */
  lemma CustomAllergyOrphan(db: Db, d: Registration)
    requires !EmailTaken(db, d.email) && !PhpEmpty(d.vlastneAlergie) && d.alergie == []
    ensures var db' := RegisterParticipant(db, d, NoFaults.(customLink := true)).1;
      && RegisterParticipant(db, d, NoFaults.(customLink := true)).0.Registered?
      && db.nextAllergy in db'.allergies
      && db'.allergyLinks == db.allergyLinks
  {
  }
}
