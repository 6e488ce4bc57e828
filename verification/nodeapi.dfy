/** `register/src/js/api.js`: `processRegistration`, a fail-fast validator
    that shapes the form into the object `db.registerParticipant` stores;
    every error, thrown here or by the database, becomes a failure reply. */
module NodeApi {
  import opened Wrappers
  import opened Numbers
  import opened Forms
  import Utils
  import NodeStore

  datatype Reply = Done(id: int) | Failed(error: string)

  const RequiredFields: seq<string> := ["meno", "priezvisko", "email", "vek", "pohlavie", "gdpr"]
  const EmailFormat := "Invalid email format"
  const AgeWindow := "Age must be between 14 and 26 years (this year)"
  const DefaultError := "An error occurred during registration"

  /** The first field of `fields` whose value is falsy. */
  function FirstMissing(fd: FormData, fields: seq<string>): (r: Option<nat>)
    ensures r.None? <==> forall k | 0 <= k < |fields| :: Truthy(Get(fd, fields[k]))
    ensures r.Some? ==> r.value < |fields| && !Truthy(Get(fd, fields[r.value]))
                        && forall k | 0 <= k < r.value :: Truthy(Get(fd, fields[k]))
  {
    if fields == [] then None
    else if !Truthy(Get(fd, fields[0])) then Some(0)
    else match FirstMissing(fd, fields[1..])
      case None => None
      case Some(k) => Some(k + 1)
  }

  /** The age test as written: NaN, `vek < 14` or `vek - 14 + year > year + 13`. */
  function CheckAge(vek: Option<int>, year: int): (r: Option<int>)
    ensures r.Some? <==> vek.Some? && 14 <= vek.value <= 27
    ensures r.Some? ==> r == vek
  {
    if vek.None? || vek.value < 14 || vek.value - 14 + year > year + 13 then None else vek
  }

  /** `ids.map(id => parseInt(id))`, without a radix. */
  function ParseIds(vs: seq<string>): (r: seq<Option<int>>)
    ensures |r| == |vs| && forall k | 0 <= k < |vs| :: r[k] == ParseIntAuto(vs[k])
  {
    seq(|vs|, k requires 0 <= k < |vs| => ParseIntAuto(vs[k]))
  }

  /** Ids the page submits in decimal are read back as the same numbers. */
  lemma ParseIdsShow(vs: seq<string>, ns: seq<int>)
    requires |vs| == |ns| && forall k | 0 <= k < |vs| :: vs[k] == Show(ns[k])
    ensures |ParseIds(vs)| == |ns|
    ensures forall k | 0 <= k < |ns| :: ParseIds(vs)[k] == Some(ns[k])
  {
    forall k | 0 <= k < |ns| ensures ParseIds(vs)[k] == Some(ns[k]) {
      ParseIntAutoShow(ns[k]);
    }
  }

  /** A list field: present (as parsed ids) only when something was submitted. */
  function IdList(fd: FormData, name: string): (r: Option<seq<Option<int>>>)
    ensures r.Some? <==> GetAll(fd, name) != []
    ensures r.Some? ==> r.value == ParseIds(GetAll(fd, name))
  {
    if |GetAll(fd, name)| > 0 then Some(ParseIds(GetAll(fd, name))) else None
  }

  /** The data object built from a form that passed the checks. */
  function SubmissionOf(fd: FormData, vek: int): (d: NodeStore.Submission)
    requires forall k | 0 <= k < |RequiredFields| :: Truthy(Get(fd, RequiredFields[k]))
    ensures d.typ == (if Truthy(Get(fd, "typ")) then Get(fd, "typ").value else "ucastnik")
    ensures d.prvyKrat <==> Get(fd, "prvy_krat") == Some("on")
    ensures d.gdpr <==> Get(fd, "gdpr") == Some("on")
    ensures d.aktivity.Some? <==> GetAll(fd, "aktivity") != []
    ensures d.alergie.Some? <==> GetAll(fd, "alergie") != []
    ensures d.vek == vek
  {
    assert Truthy(Get(fd, RequiredFields[0])) && Truthy(Get(fd, RequiredFields[1]));
    assert Truthy(Get(fd, RequiredFields[2])) && Truthy(Get(fd, RequiredFields[4]));
    NodeStore.Submission(
      Get(fd, "meno").value, Get(fd, "priezvisko").value, Get(fd, "email").value, vek,
      Get(fd, "pohlavie").value,
      NodeStore.OrNull(Get(fd, "mladez_id")), NodeStore.OrNull(Get(fd, "vlastny_mladez")),
      Get(fd, "prvy_krat") == Some("on"), NodeStore.OrNull(Get(fd, "poznamka")),
      Get(fd, "gdpr") == Some("on"), OrElse(Get(fd, "typ"), "ucastnik"),
      NodeStore.OrNull(Get(fd, "ubytovanie_id")),
      IdList(fd, "aktivity"), IdList(fd, "alergie"), NodeStore.OrNull(Get(fd, "vlastne_alergie")))
  }

  /** The checks, in order: the first missing field, the address, the age. */
  function Check(fd: FormData, year: int): (r: Result<NodeStore.Submission, string>)
    ensures r.Ok? <==>
              && (forall k | 0 <= k < |RequiredFields| :: Truthy(Get(fd, RequiredFields[k])))
              && Utils.EmailPattern(Get(fd, "email").value)
              && CheckAge(Utils.ParseOpt(Get(fd, "vek")), year).Some?
    ensures r.Ok? ==> 14 <= r.value.vek <= 27
    ensures r.Ok? ==> Some(r.value.vek) == CheckAge(Utils.ParseOpt(Get(fd, "vek")), year)
    ensures r.Ok? ==> r.value == SubmissionOf(fd, r.value.vek)
    ensures FirstMissing(fd, RequiredFields).Some? ==>
              r == Err("Field " + RequiredFields[FirstMissing(fd, RequiredFields).value] + " is required")
    ensures FirstMissing(fd, RequiredFields).None? && Get(fd, "email").Some? ==>
              (!Utils.EmailPattern(Get(fd, "email").value) ==> r == Err(EmailFormat))
    ensures FirstMissing(fd, RequiredFields).None? && Get(fd, "email").Some? ==>
              (Utils.EmailPattern(Get(fd, "email").value) && CheckAge(Utils.ParseOpt(Get(fd, "vek")), year).None?
               ==> r == Err(AgeWindow))
  {
    match FirstMissing(fd, RequiredFields)
    case Some(k) => Err("Field " + RequiredFields[k] + " is required")
    case None =>
      assert RequiredFields[2] == "email";
      var email := Get(fd, "email").value;
      Utils.EmailTestIff(email);
      if !Utils.EmailTest(email) then Err(EmailFormat)
      else match CheckAge(Utils.ParseOpt(Get(fd, "vek")), year)
        case None => Err(AgeWindow)
        case Some(vek) => Ok(SubmissionOf(fd, vek))
  }

  /** The reply for what `db.registerParticipant` returned or threw: an
      error without a message gets the default one. */
  function Answer(r: (Result<int, string>, NodeStore.Db), db: NodeStore.Db): (res: (Reply, NodeStore.Db))
    ensures r.0.Ok? ==> res == (Done(r.0.value), r.1)
    ensures r.0.Err? ==> res.1 == db && res.0.Failed? && res.0.error != ""
    ensures r.0.Err? && r.0.error != "" ==> res.0.error == r.0.error
  {
    match r.0
    case Ok(id) => (Done(id), r.1)
    case Err(m) => (Failed(if m == "" then DefaultError else m), db)
  }

  /** `processRegistration(formData)`. */
  function ProcessRegistration(fd: FormData, year: int, db: NodeStore.Db, fault: Option<NodeStore.Failure>)
    : (res: (Reply, NodeStore.Db))
    ensures Check(fd, year).Err? ==> res == (Failed(Check(fd, year).error), db)
    ensures Check(fd, year).Ok? ==>
              res == Answer(NodeStore.RegisterParticipant(db, Check(fd, year).value, fault), db)
    ensures res.0.Failed? ==> res.1 == db && res.0.error != ""
    ensures res.0.Done? ==> Check(fd, year).Ok? && res.0.id == db.nextPerson
  {
    match Check(fd, year)
    case Err(e) =>
      assert e != "" by { assert |EmailFormat| > 0 && |AgeWindow| > 0; }
      (Failed(e), db)
    case Ok(d) => Answer(NodeStore.RegisterParticipant(db, d, fault), db)
  }

  /** A form that passes the checks is stored when no statement fails: the
      reply carries the new id and the person row is written under it. */
  lemma PassingFormStored(fd: FormData, year: int, db: NodeStore.Db)
    requires Check(fd, year).Ok?
    ensures ProcessRegistration(fd, year, db, None).0 == Done(db.nextPerson)
    ensures ProcessRegistration(fd, year, db, None).1.persons
            == db.persons[db.nextPerson := NodeStore.PersonOf(Check(fd, year).value)]
  {
    NodeStore.CommittedRows(db, Check(fd, year).value, None);
  }

  /** Without a radix `parseInt` reads `0x14` as 20, so that age passes. */
  lemma HexAgeAccepted(fd: FormData, year: int)
    requires Get(fd, "vek") == Some("0x14")
    ensures CheckAge(Utils.ParseOpt(Get(fd, "vek")), year) == Some(20)
  {
    HexPrefixCounts();
  }

  /** Unlike `validateForm`, a non-numeric age is refused rather than ignored. */
  lemma NonNumericAgeRefused(fd: FormData, year: int)
    requires forall k | 0 <= k < |RequiredFields| :: Truthy(Get(fd, RequiredFields[k]))
    requires Utils.ParseOpt(Get(fd, "vek")).None?
    ensures Check(fd, year).Err?
    ensures Utils.ValidateForm(fd, year).errors.Keys * {"vek"} == {}
  {
    assert RequiredFields[3] == "vek";
    assert "vek" !in Utils.RequiredErrors(fd).Keys;
  }
}
