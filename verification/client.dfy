/** `register/src/js/main.js`: the pure decisions of the registration page —
    the registration type from the URL, the token handed to the server,
    activity bucketing by day, seat classification, the guest defaults and
    the pre-submit check. */
module Client {
  import opened Wrappers
  import opened Text
  import opened Numbers
  import opened Forms
  import opened Seqs
  import Uuid
  import Dates

  // ------------------------------------------------------------ page setup

  /** The outcome of reading the URL: the token error page, or the type and token to use. */
  datatype Setup = TokenError | Ready(regType: string, token: string)

  /** Lines 86-124: a token must look like a version-4 UUID; with `special=true`
      a valid token makes a leader, and `type=host` makes a guest. */
  function SetupFromUrl(params: FormData): (r: Setup)
    ensures !Truthy(Get(params, "token")) ==> r == Ready("ucastnik", "")
    ensures r == TokenError <==> Truthy(Get(params, "token")) && !Uuid.IsV4Token(Get(params, "token").value)
    ensures r.Ready? && r.regType != "ucastnik" ==>
              Get(params, "special") == Some("true") && Uuid.IsV4Token(r.token)
    ensures (r.Ready? && r.regType == "host") <==>
              (r.Ready? && Get(params, "special") == Some("true") && r.token != "" && Get(params, "type") == Some("host"))
    ensures r.Ready? ==> r.regType in {"ucastnik", "veduci", "host"}
    ensures r.Ready? ==> r.token == OrElse(Get(params, "token"), "")
    ensures var token := OrElse(Get(params, "token"), "");
            token != "" && Uuid.IsV4Token(token) ==>
              r == Ready(if Get(params, "special") != Some("true") then "ucastnik"
                         else if Get(params, "type") == Some("host") then "host"
                         else "veduci", token)
  {
    var special := Get(params, "special") == Some("true");
    var token := OrElse(Get(params, "token"), "");
    if token == "" then Ready("ucastnik", "")
    else if !Uuid.IsV4Token(token) then TokenError
    else if !special then Ready("ucastnik", token)
    else if Get(params, "type") == Some("host") then Ready("host", token)
    else Ready("veduci", token)
  }

  /** Lines 724-727: the token is sent only for leaders and guests. */
  function TokenField(s: Setup): (r: Option<string>)
    requires s.Ready?
    ensures r.Some? <==> s.token != "" && s.regType in {"veduci", "host"}
    ensures r.Some? ==> r.value == s.token
  {
    if s.token != "" && (s.regType == "veduci" || s.regType == "host") then Some(s.token) else None
  }

  /** Every token the page sends passes the server's token gate: what the
      browser pattern accepts, PHP's accepts too. */
  lemma SentTokenAccepted(params: FormData)
    requires SetupFromUrl(params).Ready?
    requires TokenField(SetupFromUrl(params)).Some?
    ensures Uuid.IsV4TokenPhp(TokenField(SetupFromUrl(params)).value)
    ensures !PhpEmpty(TokenField(SetupFromUrl(params)).value)
  {
  }

  // ------------------------------------------------------------ activities

  /** An activity as listed by the server; `available_spots` arrives as text. */
  datatype Item = Item(id: int, den: string, availableSpots: string)

  /** The keys `activitiesByDay[day]` resolves on a plain object besides the
      three days, among lower-case strings: inherited from `Object.prototype`,
      and `push` on them throws. */
  predicate Inherited(key: string) {
    key == "constructor" || key == "__proto__"
  }

  /** No activity's day names an inherited key. */
  predicate Loadable(acts: seq<Item>) {
    forall k | 0 <= k < |acts| :: !Inherited(Lower(acts[k].den))
  }

  function OnDay(day: string): Item -> bool {
    (a: Item) => Lower(a.den) == day
  }

  datatype Buckets = Buckets(streda: seq<Item>, stvrtok: seq<Item>, piatok: seq<Item>)

  /** The buckets of a list of activities, by the lower-cased day. */
  function ByDay(acts: seq<Item>): Buckets {
    Buckets(Filter(acts, OnDay("streda")), Filter(acts, OnDay("stvrtok")), Filter(acts, OnDay("piatok")))
  }

  /** One step of lines 406-415: push the activity onto its day's bucket. */
  function Place(b: Buckets, a: Item): Buckets {
    var day := Lower(a.den);
    if day == "streda" then b.(streda := b.streda + [a])
    else if day == "stvrtok" then b.(stvrtok := b.stvrtok + [a])
    else if day == "piatok" then b.(piatok := b.piatok + [a])
    else b
  }

  lemma PlaceStep(acts: seq<Item>, a: Item)
    ensures ByDay(acts + [a]) == Place(ByDay(acts), a)
  {
    FilterSnoc(acts, a, OnDay("streda"));
    FilterSnoc(acts, a, OnDay("stvrtok"));
    FilterSnoc(acts, a, OnDay("piatok"));
  }

  /** Lines 401-417: each activity goes to the bucket of its lower-cased day,
      keeping the input order; other days are dropped. A day naming an
      inherited key makes the load fail (`None`). */
  method BucketByDay(acts: seq<Item>) returns (r: Option<Buckets>)
    ensures r.None? <==> !Loadable(acts)
    ensures r.Some? ==> r.value == ByDay(acts)
  {
    var b := Buckets([], [], []);
    var i := 0;
    while i < |acts|
      invariant 0 <= i <= |acts|
      invariant Loadable(acts[..i])
      invariant b == ByDay(acts[..i])
    {
      var a := acts[i];
      if Inherited(Lower(a.den)) {
        assert !Loadable(acts) by { assert acts[i] == a; }
        return None;
      }
      assert acts[..i + 1] == acts[..i] + [a];
      assert Loadable(acts[..i + 1]) by { assert acts[..i + 1][i] == a; }
      PlaceStep(acts[..i], a);
      b := Place(b, a);
      i := i + 1;
    }
    assert acts[..i] == acts;
    return Some(b);
  }

  // ------------------------------------------------------------ seats

  datatype Seats = Disabled | Low | Open

  /** `parseInt(available_spots, 10) || 0`: NaN and 0 both become 0. */
  function Spots(text: string): int {
    match ParseInt(text)
    case None => 0
    case Some(n) => n
  }

  /** Lines 453-475: no seat left (or an unreadable count) disables the
      activity; one to three seats mark it low. */
  function Classify(text: string): (c: Seats)
    ensures c == Disabled <==> ParseInt(text).None? || ParseInt(text).value <= 0
    ensures c == Low <==> ParseInt(text).Some? && 1 <= ParseInt(text).value <= 3
  {
    var n := Spots(text);
    if n <= 0 then Disabled else if n <= 3 then Low else Open
  }

  /** A count sent as its decimal form is classified by its value; so every
      activity the server lists as available is selectable. */
  lemma ClassifyShown(n: int)
    ensures Classify(Show(n)) == (if n <= 0 then Disabled else if n <= 3 then Low else Open)
  {
    ParseIntShow(n);
  }

  // ------------------------------------------------------------ guest defaults

  /** The value PHP reads for a repeated field: the last one submitted. */
  function PhpValue(fd: FormData, name: string): Option<string> {
    if name in fd && |fd[name]| > 0 then Some(fd[name][|fd[name]| - 1]) else None
  }

  /** Lines 205-208 append the three hidden fields to the end of a guest's
      form at setup, and lines 679-681 set them again in place at submit; in
      the submitted data they come after the visible controls, with these
      values. */
  function HostDefaults(fd: FormData): (r: FormData)
    ensures forall n | n in fd :: n in r
    ensures PhpValue(r, "ubytovanie_id") == Some("6")
    ensures PhpValue(r, "mladez_id") == Some("iny")
    ensures PhpValue(r, "vlastny_mladez") == Some("Host")
    ensures forall n | n in fd && n !in {"ubytovanie_id", "mladez_id", "vlastny_mladez"} :: r[n] == fd[n]
  {
    fd["ubytovanie_id" := GetAll(fd, "ubytovanie_id") + ["6"]]
      ["mladez_id" := GetAll(fd, "mladez_id") + ["iny"]]
      ["vlastny_mladez" := GetAll(fd, "vlastny_mladez") + ["Host"]]
  }

  // ------------------------------------------------------------ pre-submit check

  /** The state of the form controls the check looks at: element values by
      id (a missing element is absent), the gender radio, the consent box and
      whether a hidden `ubytovanie_id` exists. */
  datatype Controls = Controls(values: map<string, string>, genderChecked: bool, gdprChecked: bool, hiddenRoom: bool)

  datatype Problem = Missing(id: string) | NoGender | NoConsent | NoGroup | GroupUnnamed | TooYoung

  predicate Blank(c: Controls, id: string) {
    id !in c.values || c.values[id] == ""
  }

  /** Lines 807-822: the four personal controls always come first. */
  function RequiredIds(regType: string, c: Controls): (ids: seq<string>)
    ensures |ids| >= 4 && ids[..4] == ["meno", "priezvisko", "email", "datum_narodenia"]
    ensures forall k | 4 <= k < |ids| :: ids[k] in {"mladez", "ubytovanie"}
    ensures "mladez" in ids <==> regType == "ucastnik" || regType == "veduci"
    ensures "ubytovanie" in ids <==> regType != "host" && !c.hiddenRoom
  {
    ["meno", "priezvisko", "email", "datum_narodenia"]
    + (if regType == "ucastnik" || regType == "veduci" then ["mladez"] else [])
    + (if regType != "host" && !c.hiddenRoom then ["ubytovanie"] else [])
  }

  /** The birth year as `new Date(value).getFullYear()` sees it; NaN (`None`)
      for a value that is not a date. */
  function BirthYear(value: string): Option<int> {
    match Dates.ParseIso(value)
    case None => None
    case Some(d) => Some(d.year)
  }

  /** Lines 824-830: one problem per blank required control, in order. */
  function MissingProblems(ids: seq<string>, c: Controls): (ps: seq<Problem>)
    ensures forall id | id in ids && Blank(c, id) :: Missing(id) in ps
    ensures forall k | 0 <= k < |ps| :: ps[k].Missing? && ps[k].id in ids && Blank(c, ps[k].id)
  {
    var blank := Filter(ids, (id: string) => Blank(c, id));
    var ps := seq(|blank|, k requires 0 <= k < |blank| => Missing(blank[k]));
    assert forall id | id in ids && Blank(c, id) :: Missing(id) in ps by {
      forall id | id in ids && Blank(c, id) ensures Missing(id) in ps {
        var k :| 0 <= k < |blank| && blank[k] == id;
        assert ps[k] == Missing(id);
      }
    }
    ps
  }

  /** Line 851 reads `.value` of the `vlastny-mladez` element without looking
      for it: with the group "another" chosen and that element missing, the
      check throws a `TypeError` there. */
  predicate GroupThrows(regType: string, c: Controls) {
    regType != "host" && "mladez" in c.values && c.values["mladez"] == "iny"
    && "vlastny-mladez" !in c.values
  }

  /** Lines 846-855: the group must be chosen, and named when it is "another";
      nothing is reported when line 851 throws. */
  function GroupProblems(regType: string, c: Controls): (ps: seq<Problem>)
    ensures NoGroup in ps <==> regType != "host" && "mladez" in c.values && c.values["mladez"] == ""
    ensures GroupUnnamed in ps <==>
              regType != "host" && "mladez" in c.values && c.values["mladez"] == "iny"
              && "vlastny-mladez" in c.values && c.values["vlastny-mladez"] == ""
    ensures GroupThrows(regType, c) ==> ps == []
    ensures forall p | p in ps :: p == NoGroup || p == GroupUnnamed
  {
    if regType != "host" && "mladez" in c.values then
      if c.values["mladez"] == "" then [NoGroup]
      else if c.values["mladez"] == "iny" && "vlastny-mladez" in c.values
              && c.values["vlastny-mladez"] == "" then [GroupUnnamed]
      else []
    else []
  }

  /** Lines 857-872: a readable birth date less than 14 calendar years back. */
  function AgeProblems(c: Controls, year: int): (ps: seq<Problem>)
    ensures TooYoung in ps <==>
              !Blank(c, "datum_narodenia") && BirthYear(c.values["datum_narodenia"]).Some?
              && year - BirthYear(c.values["datum_narodenia"]).value < 14
    ensures forall p | p in ps :: p == TooYoung
  {
    if !Blank(c, "datum_narodenia") && BirthYear(c.values["datum_narodenia"]).Some?
       && year - BirthYear(c.values["datum_narodenia"]).value < 14
    then [TooYoung] else []
  }

  /** Lines 832-844: the gender and consent checks. */
  function EarlyProblems(c: Controls): (ps: seq<Problem>)
    ensures NoGender in ps <==> !c.genderChecked
    ensures NoConsent in ps <==> !c.gdprChecked
    ensures forall p | p in ps :: p == NoGender || p == NoConsent
  {
    (if c.genderChecked then [] else [NoGender]) + (if c.gdprChecked then [] else [NoConsent])
  }

  /** Lines 832-872: the checks after the required controls. */
  function OtherProblems(regType: string, c: Controls, year: int): (ps: seq<Problem>)
    ensures forall p | p in ps :: !p.Missing?
    ensures NoGender in ps <==> !c.genderChecked
    ensures NoConsent in ps <==> !c.gdprChecked
    ensures NoGroup in ps <==> NoGroup in GroupProblems(regType, c)
    ensures GroupUnnamed in ps <==> GroupUnnamed in GroupProblems(regType, c)
    ensures TooYoung in ps <==> TooYoung in AgeProblems(c, year)
  {
    EarlyProblems(c) + GroupProblems(regType, c) + AgeProblems(c, year)
  }

  /** What the pre-submit check leaves behind: the problems shown, and
      whether it threw before finishing. */
  datatype Verdict = Verdict(shown: seq<Problem>, threw: bool)

  /** The form is submitted only when the check finishes with nothing to
      show; a throw leaves the submission already prevented. */
  predicate Submits(v: Verdict) {
    !v.threw && v.shown == []
  }

  /** Lines 804-886: every problem the page shows before submitting. When
      line 851 throws, the problems shown so far stay on the page and the
      group and age checks never run. */
  function Check(regType: string, c: Controls, year: int): (v: Verdict)
    ensures v.threw <==> GroupThrows(regType, c)
    ensures forall id | id in RequiredIds(regType, c) && Blank(c, id) :: Missing(id) in v.shown
    ensures forall id | Missing(id) in v.shown :: id in RequiredIds(regType, c) && Blank(c, id)
    ensures NoGender in v.shown <==> !c.genderChecked
    ensures NoConsent in v.shown <==> !c.gdprChecked
    ensures NoGroup in v.shown <==> regType != "host" && "mladez" in c.values && c.values["mladez"] == ""
    ensures GroupUnnamed in v.shown <==>
              regType != "host" && "mladez" in c.values && c.values["mladez"] == "iny"
              && "vlastny-mladez" in c.values && c.values["vlastny-mladez"] == ""
    ensures TooYoung in v.shown <==>
              !v.threw && !Blank(c, "datum_narodenia") && BirthYear(c.values["datum_narodenia"]).Some?
              && year - BirthYear(c.values["datum_narodenia"]).value < 14
  {
    var missing := MissingProblems(RequiredIds(regType, c), c);
    if GroupThrows(regType, c) then
      var shown := missing + EarlyProblems(c);
      assert forall p | p in shown :: p in missing || p == NoGender || p == NoConsent;
      Verdict(shown, true)
    else
      var others := OtherProblems(regType, c, year);
      assert forall id | Missing(id) in missing + others :: Missing(id) in missing;
      Verdict(missing + others, false)
  }

  /** A form is submitted only with every required control filled, gender
      and consent given, a named group and an old enough birth year. */
  lemma SubmittedFormComplete(regType: string, c: Controls, year: int)
    requires Submits(Check(regType, c, year))
    ensures forall id | id in RequiredIds(regType, c) :: !Blank(c, id)
    ensures c.genderChecked && c.gdprChecked
    ensures !GroupThrows(regType, c)
    ensures !Blank(c, "datum_narodenia")
    ensures BirthYear(c.values["datum_narodenia"]).Some? ==>
              year - BirthYear(c.values["datum_narodenia"]).value >= 14
  {
  }

  /** The page's age check is the live endpoint's: the same calendar-year
      difference, so a date the page lets through is not refused for age there. */
  lemma SameAgeAsLiveEndpoint(c: Controls, regType: string, today: Dates.Date, birth: Dates.Date)
    requires !Blank(c, "datum_narodenia") && Dates.ParseIso(c.values["datum_narodenia"]) == Some(birth)
    ensures !GroupThrows(regType, c) ==>
              (TooYoung in Check(regType, c, today.year).shown <==> Dates.CalendarAge(today, birth) < 14)
    ensures GroupThrows(regType, c) ==> !Submits(Check(regType, c, today.year))
  {
  }
}
