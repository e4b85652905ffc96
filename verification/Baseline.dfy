/**
  The suppression baseline of scripts/verify-architecture-boundaries.py: loading
  it, dividing the findings by it, and the exit code of the gate.
 */
module Baseline {
  import opened Sequences
  import opened PyText
  import opened Findings

  /** Dates are day numbers. */
  datatype Entry = Entry(key: Key, introduced: int, expires: int)

  /** An item of the 'entries' list with its string-valued fields, or something that is no object. */
  type RawEntry = Option<map<string, string>>

  /** The known rules, the reading of ISO dates and the canonical form of paths. */
  datatype Checks = Checks(rules: set<string>, parseDate: string -> Option<int>, canonical: string -> string)

  datatype LoadError = NotAnObject | MissingField(name: string) | UnknownRule | InvalidDate
                     | AfterExpiry | InTheFuture | Duplicate(key: Key)

  datatype Loaded = Entries(entries: seq<Entry>) | Malformed(error: LoadError)

  const FIELDS := ["rule", "path", "target", "reason", "owner", "introduced", "expires"]

  predicate HasField(raw: map<string, string>, name: string) {
    name in raw && !IsBlank(raw[name])
  }

  predicate HasFields(raw: map<string, string>) {
    forall i :: 0 <= i < |FIELDS| ==> HasField(raw, FIELDS[i])
  }

  /** The entry that a raw one stands for, if its fields can be read. */
  function EntryOf(raw: RawEntry, c: Checks): Option<Entry> {
    if raw.None? || !HasFields(raw.value) then None
    else
      var fields := raw.value;
      assert HasField(fields, FIELDS[0]) && HasField(fields, FIELDS[1]) && HasField(fields, FIELDS[2]);
      assert HasField(fields, FIELDS[5]) && HasField(fields, FIELDS[6]);
      var introduced, expires := c.parseDate(fields["introduced"]), c.parseDate(fields["expires"]);
      if fields["rule"] !in c.rules || introduced.None? || expires.None? then None
      else Some(Entry(Key(fields["rule"], c.canonical(fields["path"]), fields["target"]), introduced.value, expires.value))
  }

  predicate AllRead(raws: seq<RawEntry>, c: Checks) {
    forall i :: 0 <= i < |raws| ==> EntryOf(raws[i], c).Some?
  }

  function EntriesOf(raws: seq<RawEntry>, c: Checks): (entries: seq<Entry>)
    requires AllRead(raws, c)
    ensures |entries| == |raws|
  {
    seq(|raws|, i requires 0 <= i < |raws| => EntryOf(raws[i], c).value)
  }

  predicate GoodEntry(e: Entry, today: int) {
    e.introduced <= e.expires && e.introduced <= today
  }

  ghost predicate DistinctEntries(entries: seq<Entry>) {
    forall i, j :: 0 <= i < j < |entries| ==> entries[i].key != entries[j].key
  }

  ghost predicate WellFormed(entries: seq<Entry>, today: int) {
    DistinctEntries(entries) && forall i :: 0 <= i < |entries| ==> GoodEntry(entries[i], today)
  }

  /** The baseline can be read, and its entries are distinct and correctly dated. */
  ghost predicate Loads(raws: seq<RawEntry>, c: Checks, today: int) {
    AllRead(raws, c) && WellFormed(EntriesOf(raws, c), today)
  }

  /** The checks on one entry, in the order of the source. */
  method ReadEntry(raw: RawEntry, c: Checks, today: int) returns (e: Option<Entry>, error: LoadError)
    ensures e.Some? <==> EntryOf(raw, c).Some? && GoodEntry(EntryOf(raw, c).value, today)
    ensures e.Some? ==> e == EntryOf(raw, c)
  {
    if raw.None? {
      return None, NotAnObject;
    }
    for i := 0 to |FIELDS|
      invariant forall k :: 0 <= k < i ==> HasField(raw.value, FIELDS[k])
    {
      if !HasField(raw.value, FIELDS[i]) {
        assert !HasFields(raw.value);
        return None, MissingField(FIELDS[i]);
      }
    }
    error := UnknownRule;
    e := EntryOf(raw, c);
    assert HasField(raw.value, FIELDS[0]) && HasField(raw.value, FIELDS[5]) && HasField(raw.value, FIELDS[6]);
    if raw.value["rule"] !in c.rules {
      return;
    }
    if c.parseDate(raw.value["introduced"]).None? || c.parseDate(raw.value["expires"]).None? {
      error := InvalidDate;
      return;
    }
    if e.value.introduced > e.value.expires {
      return None, AfterExpiry;
    }
    if e.value.introduced > today {
      return None, InTheFuture;
    }
  }

  method LoadBaseline(raws: seq<RawEntry>, c: Checks, today: int) returns (loaded: Loaded)
    ensures loaded.Entries? <==> Loads(raws, c, today)
    ensures loaded.Entries? ==> loaded.entries == EntriesOf(raws, c)
  {
    var entries: seq<Entry> := [];
    var seen: set<Key> := {};
    for i := 0 to |raws|
      invariant |entries| == i && forall j :: 0 <= j < i ==> EntryOf(raws[j], c) == Some(entries[j])
      invariant forall key :: key in seen <==> exists j :: 0 <= j < i && entries[j].key == key
      invariant WellFormed(entries, today)
    {
      var entry, error := ReadEntry(raws[i], c, today);
      if entry.None? {
        assert AllRead(raws, c) ==> !GoodEntry(EntriesOf(raws, c)[i], today);
        return Malformed(error);
      }
      if entry.value.key in seen {
        assert AllRead(raws, c) ==> forall j :: 0 <= j <= i ==> Some(EntriesOf(raws, c)[j]) == EntryOf(raws[j], c);
        return Malformed(Duplicate(entry.value.key));
      }
      seen := seen + {entry.value.key};
      entries := entries + [entry.value];
    }
    assert AllRead(raws, c) && entries == EntriesOf(raws, c);
    loaded := Entries(entries);
  }

  /** The field is there and is not blank. */
  predicate Filled(raw: map<string, string>, name: string) {
    name in raw && exists k :: 0 <= k < |raw[name]| && !IsSpace(raw[name][k])
  }

  predicate AllFilled(raw: map<string, string>) {
    && Filled(raw, "rule") && Filled(raw, "path") && Filled(raw, "target") && Filled(raw, "reason") && Filled(raw, "owner")
    && Filled(raw, "introduced") && Filled(raw, "expires")
  }

  /** The entry `i` of a file: an object with seven fields that are not blank, a known rule, and two dates that can be
      read, are in order, and of which the first is not in the future. */
  ghost predicate EntryIsFine(raws: seq<RawEntry>, i: nat, c: Checks, today: int)
    requires i < |raws|
  {
    && raws[i].Some?
    && AllFilled(raws[i].value)
    && raws[i].value["rule"] in c.rules
    && c.parseDate(raws[i].value["introduced"]).Some? && c.parseDate(raws[i].value["expires"]).Some?
    && c.parseDate(raws[i].value["introduced"]).value <= c.parseDate(raws[i].value["expires"]).value
    && c.parseDate(raws[i].value["introduced"]).value <= today
  }

  lemma FieldIs(raw: map<string, string>, name: string)
    ensures HasField(raw, name) <==> Filled(raw, name)
  {
    if name in raw {
      var k := SpaceEnd(raw[name], 0);
    }
  }

  lemma FieldsAre(raw: map<string, string>)
    ensures HasFields(raw) <==> AllFilled(raw)
  {
    forall i | 0 <= i < |FIELDS|
      ensures HasField(raw, FIELDS[i]) <==> Filled(raw, FIELDS[i])
    {
      FieldIs(raw, FIELDS[i]);
    }
    assert FIELDS[0] == "rule" && FIELDS[1] == "path" && FIELDS[2] == "target" && FIELDS[3] == "reason"
           && FIELDS[4] == "owner" && FIELDS[5] == "introduced" && FIELDS[6] == "expires";
  }

  lemma EntryIsFineIff(raws: seq<RawEntry>, i: nat, c: Checks, today: int)
    requires i < |raws|
    ensures EntryIsFine(raws, i, c, today) <==> EntryOf(raws[i], c).Some? && GoodEntry(EntryOf(raws[i], c).value, today)
    ensures EntryIsFine(raws, i, c, today) ==>
              var fields := raws[i].value;
              EntryOf(raws[i], c) == Some(Entry(Key(fields["rule"], c.canonical(fields["path"]), fields["target"]),
                                                c.parseDate(fields["introduced"]).value, c.parseDate(fields["expires"]).value))
  {
    if raws[i].Some? {
      FieldsAre(raws[i].value);
      if HasFields(raws[i].value) {
        EntryIs(raws[i].value, c);
      }
    }
  }

  lemma EntryIs(fields: map<string, string>, c: Checks)
    requires HasFields(fields)
    ensures "rule" in fields && "path" in fields && "target" in fields && "introduced" in fields && "expires" in fields
    ensures EntryOf(Some(fields), c) ==
            var introduced, expires := c.parseDate(fields["introduced"]), c.parseDate(fields["expires"]);
            if fields["rule"] in c.rules && introduced.Some? && expires.Some?
            then Some(Entry(Key(fields["rule"], c.canonical(fields["path"]), fields["target"]), introduced.value, expires.value))
            else None
  {
    assert HasField(fields, FIELDS[0]) && HasField(fields, FIELDS[1]) && HasField(fields, FIELDS[2]);
    assert HasField(fields, FIELDS[5]) && HasField(fields, FIELDS[6]);
  }

  /** Two entries suppress the same finding. */
  predicate SameTarget(raws: seq<RawEntry>, i: nat, j: nat, c: Checks)
    requires i < |raws| && j < |raws|
  {
    && raws[i].Some? && raws[j].Some?
    && (forall name :: name in {"rule", "path", "target"} ==> name in raws[i].value && name in raws[j].value)
    && raws[i].value["rule"] == raws[j].value["rule"]
    && c.canonical(raws[i].value["path"]) == c.canonical(raws[j].value["path"])
    && raws[i].value["target"] == raws[j].value["target"]
  }

  /** A baseline loads exactly when each of its entries is fine, and no two agree on rule, canonical path and target. */
  lemma LoadsIff(raws: seq<RawEntry>, c: Checks, today: int)
    ensures Loads(raws, c, today) <==>
            && (forall i :: 0 <= i < |raws| ==> EntryIsFine(raws, i, c, today))
            && forall i, j :: 0 <= i < j < |raws| ==> !SameTarget(raws, i, j, c)
  {
    forall i | 0 <= i < |raws|
      ensures EntryIsFine(raws, i, c, today) <==> EntryOf(raws[i], c).Some? && GoodEntry(EntryOf(raws[i], c).value, today)
    {
      EntryIsFineIff(raws, i, c, today);
    }
    if AllRead(raws, c) {
      var entries := EntriesOf(raws, c);
      forall i, j | 0 <= i < j < |raws|
        ensures entries[i].key == entries[j].key <==> SameTarget(raws, i, j, c)
      {
        SameTargetIs(raws, i, j, c);
      }
      forall i | 0 <= i < |raws|
        ensures GoodEntry(entries[i], today) <==> EntryIsFine(raws, i, c, today)
      {
        assert EntryOf(raws[i], c) == Some(entries[i]);
      }
    } else {
      var i :| 0 <= i < |raws| && EntryOf(raws[i], c).None?;
      assert !EntryIsFine(raws, i, c, today);
    }
  }

  lemma SameTargetIs(raws: seq<RawEntry>, i: nat, j: nat, c: Checks)
    requires i < |raws| && j < |raws| && EntryOf(raws[i], c).Some? && EntryOf(raws[j], c).Some?
    ensures SameTarget(raws, i, j, c) <==> EntryOf(raws[i], c).value.key == EntryOf(raws[j], c).value.key
  {
    FieldsAre(raws[i].value);
    FieldsAre(raws[j].value);
  }

  // ---------- dividing the findings ----------

  function EntryFor(entries: seq<Entry>, key: Key): (e: Option<Entry>)
    ensures e.Some? ==> e.value in entries && e.value.key == key
    ensures e.None? ==> forall i :: 0 <= i < |entries| ==> entries[i].key != key
  {
    if entries == [] then None
    else if entries[|entries| - 1].key == key then Some(entries[|entries| - 1])
    else EntryFor(entries[..|entries| - 1], key)
  }

  function StatusOf(f: Finding, entries: seq<Entry>, today: int): Status {
    match EntryFor(entries, f.key)
    case None => New
    case Some(e) => if today > e.expires then Expired else Tracked
  }

  /** The findings of one status, marked with it, in order. */
  function WithStatus(fs: seq<Finding>, entries: seq<Entry>, today: int, wanted: set<Status>): seq<Finding> {
    if fs == [] then []
    else
      var last := fs[|fs| - 1];
      var status := StatusOf(last, entries, today);
      WithStatus(fs[..|fs| - 1], entries, today, wanted)
      + if status in wanted then [if status.New? then last else last.(status := status)] else []
  }

  function Keys(fs: seq<Finding>): set<Key> {
    set f | f in fs :: f.key
  }

  function EntryKeys(entries: seq<Entry>): set<Key> {
    set e | e in entries :: e.key
  }

  /** The entries without a finding, in order. */
  function Unmatched(entries: seq<Entry>, keys: set<Key>): seq<Entry> {
    if entries == [] then []
    else
      Unmatched(entries[..|entries| - 1], keys)
      + if entries[|entries| - 1].key in keys then [] else [entries[|entries| - 1]]
  }

  datatype Division = Division(tracked: seq<Finding>, blocking: seq<Finding>, stale: seq<Entry>, expired: seq<Finding>)

  function Divide(fs: seq<Finding>, entries: seq<Entry>, today: int): Division {
    Division(WithStatus(fs, entries, today, {Tracked}), WithStatus(fs, entries, today, {New, Expired}),
             Unmatched(entries, Keys(fs)), WithStatus(fs, entries, today, {Expired}))
  }

  /** `baseline_by_key` */
  method ByKey(entries: seq<Entry>) returns (byKey: map<Key, Entry>)
    ensures forall key :: EntryFor(entries, key) == if key in byKey then Some(byKey[key]) else None
  {
    byKey := map[];
    for i := 0 to |entries|
      invariant forall key :: EntryFor(entries[..i], key) == if key in byKey then Some(byKey[key]) else None
    {
      assert entries[..i + 1][..i] == entries[..i] && entries[..i + 1][i] == entries[i];
      byKey := byKey[entries[i].key := entries[i]];
    }
    assert entries[..|entries|] == entries;
  }

  method ApplyBaseline(fs: seq<Finding>, entries: seq<Entry>, today: int) returns (d: Division)
    ensures d == Divide(fs, entries, today)
  {
    var byKey := ByKey(entries);
    var matched: set<Key> := {};
    var tracked, blocking, expired: seq<Finding> := [], [], [];
    for i := 0 to |fs|
      invariant matched == Keys(fs[..i]) * EntryKeys(entries)
      invariant tracked == WithStatus(fs[..i], entries, today, {Tracked})
      invariant blocking == WithStatus(fs[..i], entries, today, {New, Expired})
      invariant expired == WithStatus(fs[..i], entries, today, {Expired})
    {
      var f := fs[i];
      OneMore(fs, i, entries, today);
      if f.key !in byKey {
        blocking := blocking + [f];
      } else {
        matched := matched + {f.key};
        if today > byKey[f.key].expires {
          expired := expired + [f.(status := Expired)];
          blocking := blocking + [f.(status := Expired)];
        } else {
          tracked := tracked + [f.(status := Tracked)];
        }
      }
    }
    assert fs[..|fs|] == fs;
    var stale := StaleEntries(entries, matched, Keys(fs));
    d := Division(tracked, blocking, stale, expired);
  }

  /** What one more finding adds to the marked lists. */
  lemma OneMore(fs: seq<Finding>, i: nat, entries: seq<Entry>, today: int)
    requires i < |fs|
    ensures Keys(fs[..i + 1]) == Keys(fs[..i]) + {fs[i].key} && (fs[i].key in EntryKeys(entries) <==> EntryFor(entries, fs[i].key).Some?)
    ensures var status := StatusOf(fs[i], entries, today);
            && WithStatus(fs[..i + 1], entries, today, {Tracked}) ==
               WithStatus(fs[..i], entries, today, {Tracked}) + (if status.Tracked? then [fs[i].(status := Tracked)] else [])
            && WithStatus(fs[..i + 1], entries, today, {Expired}) ==
               WithStatus(fs[..i], entries, today, {Expired}) + (if status.Expired? then [fs[i].(status := Expired)] else [])
            && WithStatus(fs[..i + 1], entries, today, {New, Expired}) ==
               WithStatus(fs[..i], entries, today, {New, Expired})
               + (if status.Tracked? then [] else if status.New? then [fs[i]] else [fs[i].(status := Expired)])
  {
    assert fs[..i + 1][..i] == fs[..i] && fs[..i + 1][i] == fs[i];
    assert fs[..i] + [fs[i]] == fs[..i + 1];
    MatchedGrows(fs[..i], fs[i], entries);
  }

  lemma MatchedGrows(fs: seq<Finding>, f: Finding, entries: seq<Entry>)
    ensures Keys(fs + [f]) == Keys(fs) + {f.key}
    ensures f.key in EntryKeys(entries) <==> EntryFor(entries, f.key).Some?
  {
    assert forall g :: g in fs + [f] <==> g in fs || g == f;
  }

  method StaleEntries(entries: seq<Entry>, matched: set<Key>, ghost keys: set<Key>) returns (stale: seq<Entry>)
    requires matched == keys * EntryKeys(entries)
    ensures stale == Unmatched(entries, keys)
  {
    stale := [];
    for i := 0 to |entries|
      invariant stale == Unmatched(entries[..i], keys)
    {
      assert entries[..i + 1][..i] == entries[..i] && entries[..i + 1][i] == entries[i];
      assert entries[i] in entries;
      if entries[i].key !in matched {
        stale := stale + [entries[i]];
      }
    }
    assert entries[..|entries|] == entries;
  }

  // ---------- what the division means ----------

  /** The finding as it came in. */
  function Plain(f: Finding): Finding {
    f.(status := New)
  }

  function Plains(fs: seq<Finding>): multiset<Finding> {
    if fs == [] then multiset{} else Plains(fs[..|fs| - 1]) + multiset{Plain(fs[|fs| - 1])}
  }

  lemma {:induction false} PlainsJoin(a: seq<Finding>, b: seq<Finding>)
    ensures Plains(a + b) == Plains(a) + Plains(b)
    decreases |b|
  {
    if b == [] {
      assert a + b == a;
    } else {
      assert (a + b)[..|a + b| - 1] == a + b[..|b| - 1];
      PlainsJoin(a, b[..|b| - 1]);
    }
  }

  /** What the last finding adds to a choice of statuses. */
  lemma LastAdds(fs: seq<Finding>, entries: seq<Entry>, today: int, wanted: set<Status>)
    requires fs != []
    ensures var front, last := fs[..|fs| - 1], fs[|fs| - 1];
            Plains(WithStatus(fs, entries, today, wanted)) ==
            Plains(WithStatus(front, entries, today, wanted))
            + if StatusOf(last, entries, today) in wanted then multiset{Plain(last)} else multiset{}
  {
    var front, last := fs[..|fs| - 1], fs[|fs| - 1];
    var status := StatusOf(last, entries, today);
    var marked := if status.New? then last else last.(status := status);
    PlainsJoin(WithStatus(front, entries, today, wanted), if status in wanted then [marked] else []);
    assert [marked][..0] == [];
  }

  /** Two disjoint choices of statuses divide what their union selects. */
  lemma {:induction false} StatusesDivide(fs: seq<Finding>, entries: seq<Entry>, today: int, a: set<Status>, b: set<Status>)
    requires a !! b
    ensures Plains(WithStatus(fs, entries, today, a + b)) ==
            Plains(WithStatus(fs, entries, today, a)) + Plains(WithStatus(fs, entries, today, b))
    decreases |fs|
  {
    if fs != [] {
      StatusesDivide(fs[..|fs| - 1], entries, today, a, b);
      LastAdds(fs, entries, today, a);
      LastAdds(fs, entries, today, b);
      LastAdds(fs, entries, today, a + b);
    }
  }

  lemma {:induction false} EveryStatus(fs: seq<Finding>, entries: seq<Entry>, today: int)
    ensures Plains(WithStatus(fs, entries, today, {New, Tracked, Expired})) == Plains(fs)
    decreases |fs|
  {
    if fs != [] {
      EveryStatus(fs[..|fs| - 1], entries, today);
      LastAdds(fs, entries, today, {New, Tracked, Expired});
    }
  }

  /** Tracked and blocking findings divide the findings, and the expired ones are blocking. */
  lemma FindingsAreDivided(fs: seq<Finding>, entries: seq<Entry>, today: int)
    ensures var d := Divide(fs, entries, today);
            && Plains(d.tracked) + Plains(d.blocking) == Plains(fs)
            && Plains(d.blocking) == Plains(d.expired) + Plains(WithStatus(fs, entries, today, {New}))
  {
    assert {Tracked} + {New, Expired} == {New, Tracked, Expired} && {Expired} + {New} == {New, Expired};
    StatusesDivide(fs, entries, today, {Tracked}, {New, Expired});
    StatusesDivide(fs, entries, today, {Expired}, {New});
    EveryStatus(fs, entries, today);
  }

  lemma {:induction false} UnmatchedIs(entries: seq<Entry>, keys: set<Key>)
    ensures forall e :: e in Unmatched(entries, keys) <==> e in entries && e.key !in keys
    decreases |entries|
  {
    if entries != [] {
      UnmatchedIs(entries[..|entries| - 1], keys);
      assert entries == entries[..|entries| - 1] + [entries[|entries| - 1]];
    }
  }

  /** Matched and stale entries divide the baseline. */
  lemma BaselineIsDivided(fs: seq<Finding>, entries: seq<Entry>, today: int)
    ensures var stale := Divide(fs, entries, today).stale;
            forall e :: e in entries ==> (e in stale <==> e.key !in Keys(fs))
    ensures forall e :: e in Divide(fs, entries, today).stale ==> e in entries
  {
    UnmatchedIs(entries, Keys(fs));
  }

  // ---------- which findings and entries, in which order ----------

  /** What the baseline says of a finding, whose key has one entry or none. */
  ghost predicate Judged(f: Finding, entries: seq<Entry>, today: int, status: Status) {
    match status
    case New => forall e :: e in entries ==> e.key != f.key
    case Tracked => exists e :: e in entries && e.key == f.key && today <= e.expires
    case Expired => exists e :: e in entries && e.key == f.key && e.expires < today
  }

  lemma JudgedIs(f: Finding, entries: seq<Entry>, today: int, status: Status)
    requires DistinctEntries(entries)
    ensures Judged(f, entries, today, status) <==> StatusOf(f, entries, today) == status
  {
    assert forall e :: e in entries && e.key == f.key ==> EntryFor(entries, f.key) == Some(e);
  }

  ghost predicate MarkedAs(f: Finding, entries: seq<Entry>, today: int, wanted: set<Status>, out: Finding) {
    exists status :: status in wanted && Judged(f, entries, today, status) && out == if status.New? then f else f.(status := status)
  }

  /** `out` are the findings of the wanted statuses, at `places`, each marked with its own. */
  ghost predicate Chosen(fs: seq<Finding>, entries: seq<Entry>, today: int, wanted: set<Status>, out: seq<Finding>, places: seq<nat>) {
    && |places| == |out| && Increasing(places)
    && (forall i :: 0 <= i < |places| ==> places[i] < |fs| && MarkedAs(fs[places[i]], entries, today, wanted, out[i]))
    && forall k, status :: 0 <= k < |fs| && status in wanted && Judged(fs[k], entries, today, status) ==> k in places
  }

  lemma {:induction false} ChosenAre(fs: seq<Finding>, entries: seq<Entry>, today: int, wanted: set<Status>) returns (places: seq<nat>)
    requires DistinctEntries(entries)
    ensures Chosen(fs, entries, today, wanted, WithStatus(fs, entries, today, wanted), places)
    decreases |fs|
  {
    if fs == [] {
      places := [];
    } else {
      var n := |fs| - 1;
      var front := ChosenAre(fs[..n], entries, today, wanted);
      places := LastChosen(fs, entries, today, wanted, WithStatus(fs[..n], entries, today, wanted), front);
    }
  }

  lemma LastChosen(fs: seq<Finding>, entries: seq<Entry>, today: int, wanted: set<Status>, out: seq<Finding>, front: seq<nat>)
    returns (places: seq<nat>)
    requires DistinctEntries(entries) && fs != [] && Chosen(fs[..|fs| - 1], entries, today, wanted, out, front)
    ensures var last := fs[|fs| - 1];
            var status := StatusOf(last, entries, today);
            Chosen(fs, entries, today, wanted,
                   out + if status in wanted then [if status.New? then last else last.(status := status)] else [], places)
  {
    var n := |fs| - 1;
    var status := StatusOf(fs[n], entries, today);
    ChosenEarlier(fs, entries, today, wanted, out, front);
    OneStatus(fs[n], entries, today);
    if status in wanted {
      places := front + [n];
      assert places[|front|] == n && forall k :: k in front ==> k in places;
      assert MarkedAs(fs[n], entries, today, wanted, if status.New? then fs[n] else fs[n].(status := status));
    } else {
      places := front;
    }
  }

  lemma OneStatus(f: Finding, entries: seq<Entry>, today: int)
    requires DistinctEntries(entries)
    ensures forall status :: Judged(f, entries, today, status) <==> StatusOf(f, entries, today) == status
  {
    forall status
      ensures Judged(f, entries, today, status) <==> StatusOf(f, entries, today) == status
    {
      JudgedIs(f, entries, today, status);
    }
  }

  lemma ChosenEarlier(fs: seq<Finding>, entries: seq<Entry>, today: int, wanted: set<Status>, out: seq<Finding>, front: seq<nat>)
    requires fs != [] && Chosen(fs[..|fs| - 1], entries, today, wanted, out, front)
    ensures forall i :: 0 <= i < |front| ==> front[i] < |fs| - 1 && MarkedAs(fs[front[i]], entries, today, wanted, out[i])
    ensures forall k, status :: 0 <= k < |fs| - 1 && status in wanted && Judged(fs[k], entries, today, status) ==> k in front
  {
    forall k, status | 0 <= k < |fs| - 1 && status in wanted && Judged(fs[k], entries, today, status)
      ensures k in front
    {
      assert fs[..|fs| - 1][k] == fs[k];
    }
  }

  ghost predicate Stays(entries: seq<Entry>, fs: seq<Finding>, out: seq<Entry>, places: seq<nat>) {
    && |places| == |out| && Increasing(places)
    && (forall i :: 0 <= i < |places| ==> places[i] < |entries| && out[i] == entries[places[i]])
    && forall k :: 0 <= k < |entries| ==> (k in places <==> forall f :: f in fs ==> f.key != entries[k].key)
  }

  lemma {:induction false} StaleAre(entries: seq<Entry>, fs: seq<Finding>) returns (places: seq<nat>)
    ensures Stays(entries, fs, Unmatched(entries, Keys(fs)), places)
    decreases |entries|
  {
    if entries == [] {
      places := [];
    } else {
      var n := |entries| - 1;
      var front := StaleAre(entries[..n], fs);
      places := if entries[n].key in Keys(fs) then front else front + [n];
      LastStays(entries, fs, Unmatched(entries[..n], Keys(fs)), front, places);
    }
  }

  lemma LastStays(entries: seq<Entry>, fs: seq<Finding>, out: seq<Entry>, front: seq<nat>, places: seq<nat>)
    requires entries != [] && Stays(entries[..|entries| - 1], fs, out, front)
    requires places == if entries[|entries| - 1].key in Keys(fs) then front else front + [|entries| - 1]
    ensures Stays(entries, fs, out + if entries[|entries| - 1].key in Keys(fs) then [] else [entries[|entries| - 1]], places)
  {
    var n := |entries| - 1;
    StaysEarlier(entries, fs, out, front);
    if entries[n].key !in Keys(fs) {
      Appended(front, n);
    }
  }

  lemma Appended(front: seq<nat>, n: nat)
    requires Increasing(front) && forall i :: 0 <= i < |front| ==> front[i] < n
    ensures Increasing(front + [n]) && forall k: nat :: k in front + [n] <==> k in front || k == n
  {
  }

  lemma StaysEarlier(entries: seq<Entry>, fs: seq<Finding>, out: seq<Entry>, front: seq<nat>)
    requires entries != [] && Stays(entries[..|entries| - 1], fs, out, front)
    ensures forall i :: 0 <= i < |front| ==> front[i] < |entries| - 1 && out[i] == entries[front[i]]
    ensures forall k :: 0 <= k < |entries| - 1 ==> (k in front <==> forall f :: f in fs ==> f.key != entries[k].key)
    ensures entries[|entries| - 1].key !in Keys(fs) <==> forall f :: f in fs ==> f.key != entries[|entries| - 1].key
  {
    forall k | 0 <= k < |entries| - 1
      ensures k in front <==> forall f :: f in fs ==> f.key != entries[k].key
    {
      assert entries[..|entries| - 1][k] == entries[k];
    }
  }

  /** Tracked are the findings with an entry that has not expired, blocking those without an entry or with one that
      has, stale the entries without a finding; all in their order. */
  lemma DivisionIs(fs: seq<Finding>, entries: seq<Entry>, today: int)
    returns (tracked: seq<nat>, blocking: seq<nat>, expired: seq<nat>, stale: seq<nat>)
    requires DistinctEntries(entries)
    ensures var d := Divide(fs, entries, today);
            && Chosen(fs, entries, today, {Tracked}, d.tracked, tracked) && Chosen(fs, entries, today, {New, Expired}, d.blocking, blocking)
            && Chosen(fs, entries, today, {Expired}, d.expired, expired) && Stays(entries, fs, d.stale, stale)
  {
    tracked := ChosenAre(fs, entries, today, {Tracked});
    blocking := ChosenAre(fs, entries, today, {New, Expired});
    expired := ChosenAre(fs, entries, today, {Expired});
    stale := StaleAre(entries, fs);
  }

  // ---------- the exit code ----------

  lemma {:induction false} NothingBlocksIff(fs: seq<Finding>, entries: seq<Entry>, today: int)
    ensures WithStatus(fs, entries, today, {New, Expired}) == [] <==>
            forall f :: f in fs ==> StatusOf(f, entries, today).Tracked?
    decreases |fs|
  {
    if fs != [] {
      NothingBlocksIff(fs[..|fs| - 1], entries, today);
      assert fs == fs[..|fs| - 1] + [fs[|fs| - 1]];
    }
  }

  /** Nothing blocks and nothing is stale exactly when findings and baseline have the same keys and
      no entry has expired. */
  lemma CleanIff(fs: seq<Finding>, entries: seq<Entry>, today: int)
    requires DistinctEntries(entries)
    ensures var d := Divide(fs, entries, today);
            d.blocking == [] && d.stale == [] <==>
            Keys(fs) == EntryKeys(entries) && forall e :: e in entries ==> today <= e.expires
  {
    var d := Divide(fs, entries, today);
    NothingBlocksIff(fs, entries, today);
    UnmatchedIs(entries, Keys(fs));
    assert d.stale != [] ==> d.stale[0] in d.stale;
    assert forall e :: e in entries ==> EntryFor(entries, e.key) == Some(e);
    if d.blocking == [] && d.stale == [] {
      forall e | e in entries
        ensures e.key in Keys(fs) && today <= e.expires
      {
        assert e !in d.stale;
        var f :| f in fs && f.key == e.key;
        assert StatusOf(f, entries, today).Tracked?;
      }
      forall f | f in fs
        ensures f.key in EntryKeys(entries)
      {
        assert StatusOf(f, entries, today).Tracked?;
      }
    }
    if Keys(fs) == EntryKeys(entries) && forall e :: e in entries ==> today <= e.expires {
      forall f | f in fs
        ensures StatusOf(f, entries, today).Tracked?
      {
        assert f.key in Keys(fs);
        var e :| e in entries && e.key == f.key;
      }
      assert forall e :: e in entries ==> e.key in EntryKeys(entries);
    }
  }

  /** Deduplication neither adds nor drops a key. */
  lemma DedupedKeys(fs: seq<Finding>, out: seq<Finding>)
    requires Deduped(fs, out)
    ensures Keys(out) == Keys(fs)
  {
    forall key
      ensures key in Keys(out) <==> key in Keys(fs)
    {
      RepresentativeIs(fs, key);
      RepresentativeIs(out, key);
      DedupedRepresents(fs, out, key);
    }
  }

  /** `main`, given what each of the four passes finds; exit code 2 is for a malformed baseline. */
  method Gate(cargo: seq<Finding>, ui: seq<Finding>, bridge: seq<Finding>, vocabulary: seq<Finding>,
              raws: seq<RawEntry>, c: Checks, today: int, reportOnly: bool) returns (code: int)
    ensures code in {0, 1, 2} && (code == 2 <==> !Loads(raws, c, today))
    ensures Loads(raws, c, today) && reportOnly ==> code == 0
    ensures Loads(raws, c, today) && !reportOnly ==>
              var entries := EntriesOf(raws, c);
              (code == 0 <==>
               Keys(cargo + ui + bridge + vocabulary) == EntryKeys(entries) && forall e :: e in entries ==> today <= e.expires)
  {
    var loaded := LoadBaseline(raws, c, today);
    if loaded.Malformed? {
      return 2;
    }
    var a := DedupeFindings(cargo);
    var u := DedupeFindings(ui);
    var b := DedupeFindings(bridge);
    var v := DedupeFindings(vocabulary);
    var findings := DedupeFindings(a + u + b + v);
    PassKeys(cargo, ui, bridge, vocabulary, a, u, b, v, findings);
    var division := ApplyBaseline(findings, loaded.entries, today);
    CleanIff(findings, loaded.entries, today);
    if reportOnly {
      return 0;
    }
    code := if division.blocking != [] || division.stale != [] then 1 else 0;
  }

  lemma PassKeys(cargo: seq<Finding>, ui: seq<Finding>, bridge: seq<Finding>, vocabulary: seq<Finding>,
                 a: seq<Finding>, b: seq<Finding>, c: seq<Finding>, d: seq<Finding>, out: seq<Finding>)
    requires Deduped(cargo, a) && Deduped(ui, b) && Deduped(bridge, c) && Deduped(vocabulary, d)
    requires Deduped(a + b + c + d, out)
    ensures Keys(out) == Keys(cargo + ui + bridge + vocabulary)
  {
    FourParts(cargo, ui, bridge, vocabulary);
    FourParts(a, b, c, d);
    PassesMayDedupeFirst([cargo, ui, bridge, vocabulary], [a, b, c, d], out);
    DedupedKeys(cargo + ui + bridge + vocabulary, out);
  }

  lemma FourParts(a: seq<Finding>, b: seq<Finding>, c: seq<Finding>, d: seq<Finding>)
    ensures Concat([a, b, c, d]) == a + b + c + d
  {
    assert [] + [a] == [a] && [a] + [b] == [a, b] && [a, b] + [c] == [a, b, c] && [a, b, c] + [d] == [a, b, c, d];
    assert [] + a == a;
    ConcatAppend([], a);
    ConcatAppend([a], b);
    ConcatAppend([a, b], c);
    ConcatAppend([a, b, c], d);
  }

  lemma ConcatAppend(parts: seq<seq<Finding>>, last: seq<Finding>)
    ensures Concat(parts + [last]) == Concat(parts) + last
  {
    assert (parts + [last])[..|parts|] == parts;
  }
}
