/** The reminder store of the reminders cog: the record kept per reminder, the
    id → record dictionary (a Python dict: a map plus its insertion order), the
    id allocation rule `str(len(reminders) + 1)`, and the JSON snapshot that
    `save_reminders` writes and `load_reminders` reads back. */
module ReminderStore {

  datatype Option<T> = None | Some(value: T)

  type Id = string
  type UserId = int
  type ChannelId = int

  /** A one-time reminder has no interval; a recurring one keeps the interval
      exactly as the user typed it, unparsed. */
  datatype Kind = OneTime | Recurring(interval: string)

  /** One stored reminder. `time` is the due time in seconds on the UTC clock. */
  datatype Reminder = Reminder(userId: UserId, channelId: ChannelId, message: string, time: int, kind: Kind)

  /** The JSON object written to disk: key/record pairs in dict order. */
  type Snapshot = seq<(Id, Reminder)>

  // ---------------------------------------------------------------------------
  // The dictionary's key order

  /** No key occurs twice: each key is absent from the part before it. */
  predicate Distinct(s: seq<Id>) {
    s == [] || (s[|s| - 1] !in s[..|s| - 1] && Distinct(s[..|s| - 1]))
  }

  /** Two positions of a duplicate-free order hold different keys. */
  lemma {:induction false} DistinctAt(s: seq<Id>, i: nat, j: nat)
    requires Distinct(s) && i < j < |s|
    ensures s[i] != s[j]
  {
    var n := |s| - 1;
    assert s[..n][i] == s[i];
    if j < n {
      assert s[..n][j] == s[j];
      DistinctAt(s[..n], i, j);
    }
  }

  /** `order` lists every key of the dictionary exactly once. */
  predicate Enumerates(order: seq<Id>, keys: set<Id>) {
    && Distinct(order)
    && (forall i :: 0 <= i < |order| ==> order[i] in keys)
    && (forall k :: k in keys ==> k in order)
  }

  /** The keys listed in `s`: the same set as `KeysBefore(s, |s|)`, stated
      without positions for the batch deletion. */
  function KeySet(s: seq<Id>): (ks: set<Id>)
    ensures forall x {:trigger x in ks} :: x in ks <==> x in s
  {
    set x | x in s
  }

  /** The keys at the first n positions of `s`. */
  function KeysBefore(s: seq<Id>, n: nat): (v: set<Id>)
    requires n <= |s|
    ensures forall i :: 0 <= i < n ==> s[i] in v
  {
    if n == 0 then {} else KeysBefore(s, n - 1) + {s[n - 1]}
  }

  /** Every key listed anywhere in `s`. */
  lemma {:induction false} KeysBeforeAll(s: seq<Id>, n: nat)
    requires n <= |s|
    ensures forall k :: k in KeysBefore(s, n) ==> k in s
  {
    if n > 0 {
      KeysBeforeAll(s, n - 1);
    }
  }

  /** Key order after `d[k] = v`: a new key goes last, an existing key keeps its place. */
  function PutOrder(order: seq<Id>, keys: set<Id>, k: Id): (o: seq<Id>)
    ensures Enumerates(order, keys) ==> Enumerates(o, keys + {k})
    ensures k in keys ==> o == order
    ensures k !in keys ==> |o| == |order| + 1 && o[..|order|] == order && o[|order|] == k
  {
    if k in keys then order else assert (order + [k])[..|order|] == order; order + [k]
  }

  /** `d[k] = v` keeps the key order an enumeration of the keys. */
  lemma PutKeepsEnumeration(order: seq<Id>, m: map<Id, Reminder>, k: Id, v: Reminder)
    requires Enumerates(order, m.Keys)
    ensures Enumerates(PutOrder(order, m.Keys, k), m[k := v].Keys)
  {
    assert m[k := v].Keys == m.Keys + {k};
  }

  /** `s` with the keys in `drop` taken out, the rest in their old relative order. */
  function Filter(s: seq<Id>, drop: set<Id>): (r: seq<Id>)
    ensures forall x {:trigger x in r} :: x in r <==> x in s && x !in drop
    ensures |r| <= |s|
  {
    if s == [] then []
    else
      var n := |s| - 1;
      assert forall x :: x in s <==> x in s[..n] || x == s[n];
      Filter(s[..n], drop) + (if s[n] in drop then [] else [s[n]])
  }

  /** Taking keys out of a duplicate-free order leaves it duplicate-free. */
  lemma {:induction false} FilterKeepsDistinct(s: seq<Id>, drop: set<Id>)
    requires Distinct(s)
    ensures Distinct(Filter(s, drop))
  {
    if s != [] {
      var n := |s| - 1;
      var front := Filter(s[..n], drop);
      FilterKeepsDistinct(s[..n], drop);
      if s[n] !in drop {
        var r := front + [s[n]];
        assert r[..|front|] == front && r[|front|] == s[n];
        assert s[n] !in front;
        assert Filter(s, drop) == r;
      } else {
        assert Filter(s, drop) == front + [] == front;
      }
    }
  }

  /** Deleting keys one at a time is deleting them all at once. */
  lemma {:induction false} FilterTwice(s: seq<Id>, a: set<Id>, b: set<Id>)
    ensures Filter(Filter(s, a), b) == Filter(s, a + b)
  {
    if s != [] {
      var n := |s| - 1;
      FilterTwice(s[..n], a, b);
      var front := Filter(s[..n], a);
      if s[n] !in a {
        var r := front + [s[n]];
        assert r[..|front|] == front && r[|front|] == s[n];
        assert Filter(s, a) == r;
        assert Filter(r, b) == Filter(front, b) + (if s[n] in b then [] else [s[n]]);
      } else {
        assert Filter(s, a) == front + [] == front;
      }
    }
  }

  /** `del d[k]` keeps the key order an enumeration of the keys. */
  lemma DeleteKeepsEnumeration(order: seq<Id>, m: map<Id, Reminder>, k: Id)
    requires Enumerates(order, m.Keys)
    ensures Enumerates(Filter(order, {k}), (m - {k}).Keys)
  {
    FilterKeepsDistinct(order, {k});
    var r := Filter(order, {k});
    forall i | 0 <= i < |r|
      ensures r[i] in (m - {k}).Keys
    {
      assert r[i] in r;
    }
  }

  /** Deleting one more key from a dictionary from which the keys in `done`
      were deleted is deleting `done` and that key from the original. */
  lemma DeleteOneMore(order: seq<Id>, m: map<Id, Reminder>, done: set<Id>, k: Id)
    requires Enumerates(Filter(order, done), (m - done).Keys)
    ensures Filter(Filter(order, done), {k}) == Filter(order, done + {k})
    ensures (m - done) - {k} == m - (done + {k})
    ensures Enumerates(Filter(order, done + {k}), (m - (done + {k})).Keys)
  {
    var a, b := (m - done) - {k}, m - (done + {k});
    assert a.Keys == b.Keys;
    assert a == b;
    FilterTwice(order, done, {k});
    DeleteKeepsEnumeration(Filter(order, done), m - done, k);
  }

  /** Filtering out keys none of which occur leaves the order as it was. */
  lemma {:induction false} FilterNothing(s: seq<Id>, drop: set<Id>)
    requires forall x :: x in s ==> x !in drop
    ensures Filter(s, drop) == s
  {
    if s != [] {
      var n := |s| - 1;
      assert s[n] in s;
      FilterNothing(s[..n], drop);
      assert s == s[..n] + [s[n]];
    }
  }

  // ---------------------------------------------------------------------------
  // Persistence: `json.dump` of the dictionary and `json.load` of a file

  /** The snapshot `save_reminders` writes: the entries in dict order. */
  function ToPairs(order: seq<Id>, m: map<Id, Reminder>): (ps: Snapshot)
    requires forall k :: k in order ==> k in m
    ensures |ps| == |order|
    ensures forall i :: 0 <= i < |ps| ==> ps[i].0 == order[i] && ps[i].1 == m[order[i]]
  {
    if order == [] then []
    else ToPairs(order[..|order| - 1], m) + [(order[|order| - 1], m[order[|order| - 1]])]
  }

  /** The dictionary `load_reminders` rebuilds from a snapshot: the pairs are
      inserted in file order, so a repeated key keeps its first place and its
      last record. */
  function FromPairs(ps: Snapshot): (d: (seq<Id>, map<Id, Reminder>))
    ensures Enumerates(d.0, d.1.Keys)
    ensures |d.0| <= |ps|
  {
    if ps == [] then ([], map[])
    else
      var prefix := FromPairs(ps[..|ps| - 1]);
      var last := ps[|ps| - 1];
      (PutOrder(prefix.0, prefix.1.Keys, last.0), prefix.1[last.0 := last.1])
  }

  /** The dictionary part of a load, pair by pair: `d[k] = v` in file order.
      It equals `FromPairs(ps).1` (FromPairsMap); the load lemmas reason on it
      because it carries none of FromPairs's key-order facts. */
  function LoadedMap(ps: Snapshot): map<Id, Reminder> {
    if ps == [] then map[] else LoadedMap(ps[..|ps| - 1])[ps[|ps| - 1].0 := ps[|ps| - 1].1]
  }

  lemma {:induction false} FromPairsMap(ps: Snapshot)
    ensures FromPairs(ps).1 == LoadedMap(ps)
  {
    if ps != [] {
      FromPairsMap(ps[..|ps| - 1]);
    }
  }

  /** Loading a snapshot keeps exactly the keys the file names. */
  lemma {:induction false} FromPairsKeys(ps: Snapshot)
    ensures FromPairs(ps).1.Keys == set i | 0 <= i < |ps| :: ps[i].0
  {
    FromPairsMap(ps);
    LoadedKeys(ps);
  }

  lemma {:induction false} LoadedKeys(ps: Snapshot)
    ensures LoadedMap(ps).Keys == set i | 0 <= i < |ps| :: ps[i].0
  {
    if ps != [] {
      var n := |ps| - 1;
      var front := ps[..n];
      LoadedKeys(front);
      var named, before := set i | 0 <= i < |ps| :: ps[i].0, set i | 0 <= i < |front| :: front[i].0;
      forall k | k in named
        ensures k in before || k == ps[n].0
      {
        var i :| 0 <= i < |ps| && ps[i].0 == k;
        if i < n {
          assert front[i].0 == k;
        }
      }
      forall k | k in before
        ensures k in named
      {
        var i :| 0 <= i < |front| && front[i].0 == k;
        assert front[i] == ps[i];
      }
      assert named == before + {ps[n].0};
    }
  }

  /** A loaded key holds the record of its last occurrence in the file. */
  lemma {:induction false} FromPairsLastRecord(ps: Snapshot, i: nat)
    requires i < |ps|
    requires forall j :: i < j < |ps| ==> ps[j].0 != ps[i].0
    ensures ps[i].0 in FromPairs(ps).1 && FromPairs(ps).1[ps[i].0] == ps[i].1
  {
    FromPairsMap(ps);
    LoadedLastRecord(ps, i);
  }

  lemma {:induction false} LoadedLastRecord(ps: Snapshot, i: nat)
    requires i < |ps|
    requires forall j :: i < j < |ps| ==> ps[j].0 != ps[i].0
    ensures ps[i].0 in LoadedMap(ps) && LoadedMap(ps)[ps[i].0] == ps[i].1
  {
    var n := |ps| - 1;
    var front := ps[..n];
    if i < n {
      assert ps[n].0 != ps[i].0;
      assert front[i] == ps[i];
      forall j | i < j < |front|
        ensures front[j].0 != front[i].0
      {
        assert front[j] == ps[j];
      }
      LoadedLastRecord(front, i);
    }
  }

  /** The entries of `m` whose keys are listed in `order`. */
  function Restrict(m: map<Id, Reminder>, order: seq<Id>): (r: map<Id, Reminder>)
    requires forall k :: k in order ==> k in m
    ensures forall k :: k in r <==> k in order
    ensures forall k :: k in r ==> r[k] == m[k]
  {
    map k | k in order :: m[k]
  }

  /** Loading a file with one more pair inserts that pair last. */
  lemma FromPairsSnoc(ps: Snapshot, p: (Id, Reminder))
    ensures var d := FromPairs(ps);
            FromPairs(ps + [p]) == (PutOrder(d.0, d.1.Keys, p.0), d.1[p.0 := p.1])
  {
    assert (ps + [p])[..|ps|] == ps;
  }

  lemma RestrictSnoc(m: map<Id, Reminder>, front: seq<Id>, k: Id)
    requires k in m && forall x :: x in front ==> x in m
    ensures Restrict(m, front + [k]) == Restrict(m, front)[k := m[k]]
  {
    var r, r' := Restrict(m, front + [k]), Restrict(m, front)[k := m[k]];
    assert forall x :: x in front + [k] <==> x in front || x == k;
    assert r.Keys == r'.Keys;
  }

  /** Saving then loading an order without repeats rebuilds that order and
      the entries it lists. */
  lemma {:induction false} FromPairsToPairs(order: seq<Id>, m: map<Id, Reminder>)
    requires Distinct(order)
    requires forall k :: k in order ==> k in m
    ensures FromPairs(ToPairs(order, m)) == (order, Restrict(m, order))
  {
    if order != [] {
      var n := |order| - 1;
      var front, k := order[..n], order[n];
      assert order == front + [k];
      assert k !in front;
      FromPairsToPairs(front, m);
      FromPairsSnoc(ToPairs(front, m), (k, m[k]));
      RestrictSnoc(m, front, k);
    }
  }

  lemma RestrictAll(m: map<Id, Reminder>, order: seq<Id>)
    requires Enumerates(order, m.Keys)
    ensures Restrict(m, order) == m
  {
    var r := Restrict(m, order);
    assert r.Keys == m.Keys;
  }

  /** Reloading what `save_reminders` wrote gives back the same dictionary:
      the same ids in the same order with the same records. */
  lemma LoadAfterSave(order: seq<Id>, m: map<Id, Reminder>)
    requires Enumerates(order, m.Keys)
    ensures FromPairs(ToPairs(order, m)) == (order, m)
  {
    FromPairsToPairs(order, m);
    RestrictAll(m, order);
  }

  // ---------------------------------------------------------------------------
  // Id allocation: `str(len(self.reminders) + 1)`

  function DigitChar(d: nat): (c: char)
    requires d < 10
    ensures '0' <= c <= '9' && c as int == '0' as int + d
  {
    ('0' as int + d) as char
  }

  /** Python's `str(n)` for a natural number. */
  function DecimalString(n: nat): (s: string)
    ensures |s| >= 1
    ensures (|s| == 1) == (n < 10)
    ensures forall i :: 0 <= i < |s| ==> '0' <= s[i] <= '9'
  {
    if n < 10 then [DigitChar(n)] else DecimalString(n / 10) + [DigitChar(n % 10)]
  }

  /** Distinct numbers render as distinct ids. */
  lemma {:induction false} DecimalStringInjective(a: nat, b: nat)
    requires DecimalString(a) == DecimalString(b)
    ensures a == b
  {
    var s := DecimalString(a);
    if a >= 10 && b >= 10 {
      var n := |s| - 1;
      assert s[..n] == DecimalString(a / 10) && s[n] == DigitChar(a % 10);
      assert s[..n] == DecimalString(b / 10) && s[n] == DigitChar(b % 10);
      DecimalStringInjective(a / 10, b / 10);
    } else if a < 10 && b < 10 {
      assert s[0] == DigitChar(a) && s[0] == DigitChar(b);
    }
  }

  /** The id the next created reminder receives. */
  function NextId(m: map<Id, Reminder>): (id: Id)
    ensures |id| >= 1 && forall i :: 0 <= i < |id| ==> '0' <= id[i] <= '9'
  {
    DecimalString(|m| + 1)
  }

  /** Every key is one of "1" … str(len): what a store that has only ever
      grown by creation looks like. */
  ghost predicate IdsConsecutive(m: map<Id, Reminder>) {
    forall k :: k in m ==> exists i :: 1 <= i <= |m| && k == DecimalString(i)
  }

  /** While no reminder has been removed, the allocated id is fresh. */
  lemma NextIdFreshWhileConsecutive(m: map<Id, Reminder>)
    requires IdsConsecutive(m)
    ensures NextId(m) !in m
  {
    if NextId(m) in m {
      var i :| 1 <= i <= |m| && NextId(m) == DecimalString(i);
      DecimalStringInjective(i, |m| + 1);
    }
  }

  /** Creating a reminder in a consecutive store adds an entry and keeps it consecutive. */
  lemma CreateKeepsIdsConsecutive(m: map<Id, Reminder>, r: Reminder)
    requires IdsConsecutive(m)
    ensures |m[NextId(m) := r]| == |m| + 1
    ensures IdsConsecutive(m[NextId(m) := r])
  {
    NextIdFreshWhileConsecutive(m);
    var m' := m[NextId(m) := r];
    assert m'.Keys == m.Keys + {NextId(m)};
    forall k | k in m'
      ensures exists i :: 1 <= i <= |m'| && k == DecimalString(i)
    {
      if k == NextId(m) {
        assert k == DecimalString(|m'|);
      } else {
        var i :| 1 <= i <= |m| && k == DecimalString(i);
        assert 1 <= i <= |m'|;
      }
    }
  }

  /** When the allocated id is already taken, creation replaces that record
      and the store does not grow. */
  lemma CreateOverwritesTakenId(m: map<Id, Reminder>, r: Reminder)
    requires NextId(m) in m
    ensures |m[NextId(m) := r]| == |m|
    ensures m[NextId(m) := r][NextId(m)] == r
  {
    assert m[NextId(m) := r].Keys == m.Keys;
  }

  /** After a removal the count-based id can name a live reminder: creating
      reminders a and b, cancelling id "1" and creating c gives c the id "2",
      which overwrites b. */
  lemma CancelThenCreateOverwrites(a: Reminder, b: Reminder, c: Reminder)
    ensures var m1 := map[][NextId(map[]) := a];
            var m2 := m1[NextId(m1) := b];
            var m3 := m2 - {"1"};
            var m4 := m3[NextId(m3) := c];
            && m2 == map["1" := a, "2" := b]
            && NextId(m3) == "2" && NextId(m3) in m3
            && m4 == map["2" := c]
  {
    var m1 := map[][NextId(map[]) := a];
    assert NextId(map[]) == "1";
    assert m1 == map["1" := a];
    assert NextId(m1) == "2";
    var m2 := m1[NextId(m1) := b];
    var m3 := m2 - {"1"};
    assert m3 == map["2" := b];
    assert |m3| == 1;
  }
}
