/** `register/src/js/db.js`: the Node-side database. `registerParticipant`
    runs one statement after another inside a transaction; any failure,
    the commit included, rolls everything back and is rethrown. */
module NodeStore {
  import opened Wrappers
  import opened Numbers
  import opened Seqs
  import opened Forms
  import Store

  /** The data object `processRegistration` hands over: nullable fields
      are `Option`s, a `parseInt` that gives NaN is `None`. */
  datatype Submission = Submission(
    meno: string, priezvisko: string, email: string, vek: int, pohlavie: string,
    mladezId: Option<string>, vlastnyMladez: Option<string>, prvyKrat: bool,
    poznamka: Option<string>, gdpr: bool, typ: string, ubytovanieId: Option<string>,
    aktivity: Option<seq<Option<int>>>, alergie: Option<seq<Option<int>>>,
    vlastneAlergie: Option<string>)

  /** A row of `os_udaje` in the Node schema. */
  datatype Person = Person(
    meno: string, priezvisko: string, email: string, vek: int, pohlavie: string,
    mladezId: Option<string>, vlastnyMladez: Option<string>, prvyKrat: int,
    poznamka: Option<string>, gdpr: int, typ: string)

  /** A link to an activity or allergy id; `None` is the NaN a non-numeric id parses to. */
  datatype IdLink = IdLink(person: int, target: Option<int>)

  /** An `os_udaje_alergie` row carrying free text instead of an id. */
  datatype CustomAllergy = CustomAllergy(person: int, text: string)

  datatype Db = Db(
    persons: map<int, Person>, nextPerson: int,
    activityLinks: seq<IdLink>, allergyLinks: seq<IdLink>,
    customAllergies: seq<CustomAllergy>, roomLinks: seq<Store.Link>,
    rooms: seq<Store.Room>)

  predicate Valid(db: Db) {
    forall id | id in db.persons :: id < db.nextPerson
  }

  /** `v || null`. */
  function OrNull(v: Option<string>): (r: Option<string>)
    ensures r.Some? <==> Truthy(v)
    ensures r.Some? ==> r == v
  {
    if Truthy(v) then v else None
  }

  /** The row inserted first: consent is always stored as 1, the type
      defaults to `ucastnik`. */
  function PersonOf(d: Submission): (p: Person)
    ensures p.gdpr == 1
    ensures p.typ == (if d.typ == "" then "ucastnik" else d.typ)
    ensures p.prvyKrat == (if d.prvyKrat then 1 else 0)
  {
    Person(d.meno, d.priezvisko, d.email, d.vek, d.pohlavie, OrNull(d.mladezId), OrNull(d.vlastnyMladez),
           if d.prvyKrat then 1 else 0, OrNull(d.poznamka), 1, if d.typ == "" then "ucastnik" else d.typ)
  }

  /** One statement of the transaction. */
  datatype Stmt =
    | InsertPerson(person: Person)
    | InsertActivity(activity: Option<int>)
    | InsertAllergy(allergy: Option<int>)
    | InsertCustom(text: string)
    | InsertRoom(room: int)
    | Commit

  /** The ids of a list that is present and non-empty (`data.x && data.x.length > 0`). */
  function Ids(v: Option<seq<Option<int>>>): seq<Option<int>> {
    if v.Some? then v.value else []
  }

  function ActivityStmts(ids: seq<Option<int>>): (r: seq<Stmt>)
    ensures |r| == |ids| && forall k | 0 <= k < |ids| :: r[k] == InsertActivity(ids[k])
  {
    seq(|ids|, k requires 0 <= k < |ids| => InsertActivity(ids[k]))
  }

  function AllergyStmts(ids: seq<Option<int>>): (r: seq<Stmt>)
    ensures |r| == |ids| && forall k | 0 <= k < |ids| :: r[k] == InsertAllergy(ids[k])
  {
    seq(|ids|, k requires 0 <= k < |ids| => InsertAllergy(ids[k]))
  }

  /** The statements `registerParticipant` runs, in order. The room id is
      converted by the database the way PHP's `(int)` converts. */
  function Plan(d: Submission): (plan: seq<Stmt>)
    ensures |plan| == 2 + |Ids(d.aktivity)| + |Ids(d.alergie)|
                      + (if Truthy(d.vlastneAlergie) then 1 else 0) + (if Truthy(d.ubytovanieId) then 1 else 0)
    ensures plan[0] == InsertPerson(PersonOf(d)) && plan[|plan| - 1] == Commit
  {
    [InsertPerson(PersonOf(d))]
    + ActivityStmts(Ids(d.aktivity))
    + AllergyStmts(Ids(d.alergie))
    + (if Truthy(d.vlastneAlergie) then [InsertCustom(d.vlastneAlergie.value)] else [])
    + (if Truthy(d.ubytovanieId) then [InsertRoom(IntVal(d.ubytovanieId.value))] else [])
    + [Commit]
  }

  /** The effect of one statement that succeeds. */
  function Exec(db: Db, pid: int, s: Stmt): Db {
    match s
    case InsertPerson(p) => db.(persons := db.persons[pid := p], nextPerson := pid + 1)
    case InsertActivity(a) => db.(activityLinks := db.activityLinks + [IdLink(pid, a)])
    case InsertAllergy(a) => db.(allergyLinks := db.allergyLinks + [IdLink(pid, a)])
    case InsertCustom(t) => db.(customAllergies := db.customAllergies + [CustomAllergy(pid, t)])
    case InsertRoom(r) => db.(roomLinks := db.roomLinks + [Store.Link(pid, r)])
    case Commit => db
  }

  function ExecAll(db: Db, pid: int, plan: seq<Stmt>): Db
    decreases |plan|
  {
    if plan == [] then db else ExecAll(Exec(db, pid, plan[0]), pid, plan[1..])
  }

  /** The statement at position `at` fails with `message` (the commit is last). */
  datatype Failure = Failure(at: nat, message: string)

  /** `registerParticipant(data)`: the new id, or the rethrown error with
      nothing written. */
  function RegisterParticipant(db: Db, d: Submission, fault: Option<Failure>): (res: (Result<int, string>, Db))
    ensures res.0.Err? <==> fault.Some? && fault.value.at < |Plan(d)|
    ensures res.0.Err? ==> res == (Err(fault.value.message), db)
    ensures res.0.Ok? ==> res.0.value == db.nextPerson
  {
    var plan := Plan(d);
    if fault.Some? && fault.value.at < |plan| then (Err(fault.value.message), db)
    else (Ok(db.nextPerson), ExecAll(db, db.nextPerson, plan))
  }

  // -------------------------------------------------------------- properties

  lemma {:induction false} ExecAllAppend(db: Db, pid: int, a: seq<Stmt>, b: seq<Stmt>)
    ensures ExecAll(db, pid, a + b) == ExecAll(ExecAll(db, pid, a), pid, b)
    decreases |a|
  {
    if a == [] {
      assert a + b == b;
    } else {
      assert (a + b)[1..] == a[1..] + b;
      ExecAllAppend(Exec(db, pid, a[0]), pid, a[1..], b);
    }
  }

  function IdLinks(pid: int, ids: seq<Option<int>>): (r: seq<IdLink>)
    ensures |r| == |ids| && forall k | 0 <= k < |ids| :: r[k] == IdLink(pid, ids[k])
  {
    seq(|ids|, k requires 0 <= k < |ids| => IdLink(pid, ids[k]))
  }

  /** The activity inserts add exactly one link per id, in order. */
  lemma {:induction false} ExecActivities(db: Db, pid: int, ids: seq<Option<int>>)
    ensures ExecAll(db, pid, ActivityStmts(ids))
            == db.(activityLinks := db.activityLinks + IdLinks(pid, ids))
    decreases |ids|
  {
    var plan := ActivityStmts(ids);
    if ids != [] {
      var db1 := Exec(db, pid, plan[0]);
      assert plan[1..] == ActivityStmts(ids[1..]);
      ExecActivities(db1, pid, ids[1..]);
      assert db1.activityLinks + IdLinks(pid, ids[1..]) == db.activityLinks + IdLinks(pid, ids);
    }
  }

  /** The allergy inserts add exactly one link per id, in order. */
  lemma {:induction false} ExecAllergies(db: Db, pid: int, ids: seq<Option<int>>)
    ensures ExecAll(db, pid, AllergyStmts(ids))
            == db.(allergyLinks := db.allergyLinks + IdLinks(pid, ids))
    decreases |ids|
  {
    var plan := AllergyStmts(ids);
    if ids != [] {
      var db1 := Exec(db, pid, plan[0]);
      assert plan[1..] == AllergyStmts(ids[1..]);
      ExecAllergies(db1, pid, ids[1..]);
      assert db1.allergyLinks + IdLinks(pid, ids[1..]) == db.allergyLinks + IdLinks(pid, ids);
    }
  }

  /** A committed registration writes the person, one link per activity and
      per allergy id, one custom-allergy row when the text is truthy and
      one accommodation link when the room id is truthy. */
  lemma CommittedRows(db: Db, d: Submission, fault: Option<Failure>)
    requires RegisterParticipant(db, d, fault).0.Ok?
    ensures var db' := RegisterParticipant(db, d, fault).1;
      && db'.persons == db.persons[db.nextPerson := PersonOf(d)]
      && db'.nextPerson == db.nextPerson + 1
      && db'.activityLinks == db.activityLinks + IdLinks(db.nextPerson, Ids(d.aktivity))
      && db'.allergyLinks == db.allergyLinks + IdLinks(db.nextPerson, Ids(d.alergie))
      && db'.customAllergies == db.customAllergies
           + (if Truthy(d.vlastneAlergie) then [CustomAllergy(db.nextPerson, d.vlastneAlergie.value)] else [])
      && db'.roomLinks == db.roomLinks
           + (if Truthy(d.ubytovanieId) then [Store.Link(db.nextPerson, IntVal(d.ubytovanieId.value))] else [])
      && db'.rooms == db.rooms
  {
    var pid := db.nextPerson;
    var acts := ActivityStmts(Ids(d.aktivity));
    var alls := AllergyStmts(Ids(d.alergie));
    var custom := if Truthy(d.vlastneAlergie) then [InsertCustom(d.vlastneAlergie.value)] else [];
    var room := if Truthy(d.ubytovanieId) then [InsertRoom(IntVal(d.ubytovanieId.value))] else [];
    var head := [InsertPerson(PersonOf(d))];
    assert Plan(d) == head + acts + alls + custom + room + [Commit];
    ExecAllAppend(db, pid, head + acts + alls + custom + room, [Commit]);
    ExecAllAppend(db, pid, head + acts + alls + custom, room);
    ExecAllAppend(db, pid, head + acts + alls, custom);
    ExecAllAppend(db, pid, head + acts, alls);
    ExecAllAppend(db, pid, head, acts);
    var db1 := ExecAll(db, pid, head);
    assert db1 == Exec(db, pid, head[0]);
    var db2 := ExecAll(db1, pid, acts);
    ExecActivities(db1, pid, Ids(d.aktivity));
    var db3 := ExecAll(db2, pid, alls);
    ExecAllergies(db2, pid, Ids(d.alergie));
    var db4 := ExecAll(db3, pid, custom);
    assert db4 == db3.(customAllergies := db3.customAllergies
                    + (if Truthy(d.vlastneAlergie) then [CustomAllergy(pid, d.vlastneAlergie.value)] else []));
    var db5 := ExecAll(db4, pid, room);
    assert db5 == db4.(roomLinks := db4.roomLinks
                    + (if Truthy(d.ubytovanieId) then [Store.Link(pid, IntVal(d.ubytovanieId.value))] else []));
    assert ExecAll(db5, pid, [Commit]) == db5;
    assert ExecAll(db, pid, head + acts) == db2;
    assert ExecAll(db, pid, head + acts + alls) == db3;
    assert ExecAll(db, pid, head + acts + alls + custom) == db4;
    assert ExecAll(db, pid, head + acts + alls + custom + room) == db5;
    assert ExecAll(db, pid, Plan(d)) == db5;
    assert RegisterParticipant(db, d, fault).1 == db5;
  }

  /** A committed registration takes a fresh id. */
  lemma FreshId(db: Db, d: Submission, fault: Option<Failure>)
    requires Valid(db) && RegisterParticipant(db, d, fault).0.Ok?
    ensures RegisterParticipant(db, d, fault).0.value !in db.persons
    ensures Valid(RegisterParticipant(db, d, fault).1)
  {
    CommittedRows(db, d, fault);
  }

  /** No address check: the same submission registers twice. */
  lemma NoDuplicateCheck(db: Db, d: Submission)
    ensures RegisterParticipant(db, d, None).0.Ok?
    ensures RegisterParticipant(RegisterParticipant(db, d, None).1, d, None).0.Ok?
  {
  }

  // ------------------------------------------------------------- listing

  /** The type condition of `getAvailableAccommodation`: leaders also see
      leader rooms; every other type, guests included, sees gender or shared rooms. */
  predicate RoomAdmits(typ: string, gender: string, roomTyp: string) {
    if typ == "veduci" then roomTyp == gender || roomTyp == "spolocne" || roomTyp == "veduci"
    else roomTyp == gender || roomTyp == "spolocne"
  }

  /** A listed room with `kapacita - COUNT(ouu.id)` remaining: every link row counts. */
  function RowOf(r: Store.Room, links: seq<Store.Link>): Store.RoomRow {
    Store.RoomRow(r.id, r.izba, r.kapacita, r.typ, r.kapacita - Store.Taken(links, r.id))
  }

  function Rows(rooms: seq<Store.Room>, links: seq<Store.Link>): (rows: seq<Store.RoomRow>)
    ensures |rows| == |rooms| && forall k | 0 <= k < |rooms| :: rows[k] == RowOf(rooms[k], links)
  {
    seq(|rooms|, k requires 0 <= k < |rooms| => RowOf(rooms[k], links))
  }

  function AvailableAccommodation(db: Db, gender: string, typ: string): (r: seq<Store.RoomRow>)
    ensures forall row | row in r :: row.available > 0 && RoomAdmits(typ, gender, row.pohlavie)
    ensures forall row | row in r :: exists k | 0 <= k < |db.rooms| :: row == RowOf(db.rooms[k], db.roomLinks)
    ensures forall k | 0 <= k < |db.rooms| ::
              RowOf(db.rooms[k], db.roomLinks) in r
              <== RowOf(db.rooms[k], db.roomLinks).available > 0 && RoomAdmits(typ, gender, db.rooms[k].typ)
  {
    Filter(Rows(db.rooms, db.roomLinks), (row: Store.RoomRow) => row.available > 0 && RoomAdmits(typ, gender, row.pohlavie))
  }

  /** The Node and PHP type conditions agree except for guests, whom PHP
      sends to guest rooms and Node to gender or shared rooms. */
  lemma TypeConditionsAgree(typ: string, gender: string, roomTyp: string)
    ensures typ != "host" ==> (RoomAdmits(typ, gender, roomTyp) <==> Store.RoomAdmits(typ, gender, roomTyp))
    ensures typ == "host" && gender != "host" ==>
              (Store.RoomAdmits(typ, gender, roomTyp) ==> !RoomAdmits(typ, gender, roomTyp))
  {
  }
}
