/**
 * The local theme aggregation of the monthly-reflection route's
 * generator-error fallback: count every theme label over the month's entries,
 * order the labels by count, highest first, and keep the first six.
 */
module ThemeTally {
  import opened Js
  import opened Journal
  import opened Seqs

  /**
   * One element of the reflection's `themes`: `{label, count}`. The label is
   * held in the field `theme`, because `label` is a reserved word in Dafny.
   */
  datatype ThemeCount = ThemeCount(theme: string, count: nat)

  const TopThemeLimit := 6

  // ---------------------------------------------------------------------------
  // What is being counted
  // ---------------------------------------------------------------------------

  /** How often `x` occurs in `s`. */
  function CountIn(x: string, s: seq<string>): nat {
    if |s| == 0 then 0 else (if s[0] == x then 1 else 0) + CountIn(x, s[1..])
  }

  lemma {:induction false} CountInPositive(x: string, s: seq<string>)
    ensures CountIn(x, s) > 0 <==> x in s
  {
    if |s| > 0 {
      CountInPositive(x, s[1..]);
      assert s == [s[0]] + s[1..];
    }
  }

  lemma {:induction false} CountInAppend(x: string, a: seq<string>, b: seq<string>)
    ensures CountIn(x, a + b) == CountIn(x, a) + CountIn(x, b)
  {
    if |a| > 0 {
      assert (a + b)[0] == a[0];
      assert (a + b)[1..] == a[1..] + b;
      CountInAppend(x, a[1..], b);
    } else {
      assert a + b == b;
    }
  }

  /**
   * The number of times `theme` is listed across the entries' theme lists,
   * a theme listed twice in one entry counting twice.
   */
  function Occurrences(theme: string, entries: seq<Entry>): nat {
    if |entries| == 0 then 0 else CountIn(theme, entries[0].themes) + Occurrences(theme, entries[1..])
  }

  /** A theme with occurrences is listed by some entry. */
  lemma {:induction false} OccurrenceWitness(theme: string, entries: seq<Entry>)
    requires Occurrences(theme, entries) > 0
    ensures exists k :: 0 <= k < |entries| && theme in entries[k].themes
  {
    if CountIn(theme, entries[0].themes) > 0 {
      CountInPositive(theme, entries[0].themes);
    } else {
      OccurrenceWitness(theme, entries[1..]);
      var k :| 0 <= k < |entries| - 1 && theme in entries[1..][k].themes;
      assert theme in entries[k + 1].themes;
    }
  }

  /** Every theme label in the order the nested `forEach` visits them. */
  function AllThemes(entries: seq<Entry>): seq<string> {
    if |entries| == 0 then [] else entries[0].themes + AllThemes(entries[1..])
  }

  lemma {:induction false} AllThemesCount(x: string, entries: seq<Entry>)
    ensures CountIn(x, AllThemes(entries)) == Occurrences(x, entries)
  {
    if |entries| > 0 {
      CountInAppend(x, entries[0].themes, AllThemes(entries[1..]));
      AllThemesCount(x, entries[1..]);
    }
  }

  // ---------------------------------------------------------------------------
  // The counting object, as the code intends it
  // ---------------------------------------------------------------------------

  /** One step of `map[t] = (map[t] || 0) + 1` on a map from labels to counts. */
  function Bump(m: map<string, nat>, t: string): map<string, nat> {
    m[t := (if t in m then m[t] else 0) + 1]
  }

  /** Bumps `m` once for every theme of `labels`, front to back. */
  function Tally(labels: seq<string>, m: map<string, nat>): map<string, nat> {
    if |labels| == 0 then m else Tally(labels[1..], Bump(m, labels[0]))
  }

  /** A tally adds to each key exactly the number of times the key is listed. */
  lemma {:induction false} TallyAdds(labels: seq<string>, m: map<string, nat>, k: string)
    ensures k in Tally(labels, m) <==> k in m || CountIn(k, labels) > 0
    ensures k in Tally(labels, m) ==> Tally(labels, m)[k] == (if k in m then m[k] else 0) + CountIn(k, labels)
  {
    if |labels| > 0 {
      TallyAdds(labels[1..], Bump(m, labels[0]), k);
    }
  }

  /** The counting object filled from a month's entries. */
  function CountMap(entries: seq<Entry>): map<string, nat> {
    Tally(AllThemes(entries), map[])
  }

  /** The counting object holds exactly the listed labels, each with its number of occurrences. */
  lemma CountMapCorrect(entries: seq<Entry>, k: string)
    ensures k in CountMap(entries) <==> Occurrences(k, entries) > 0
    ensures k in CountMap(entries) ==> CountMap(entries)[k] == Occurrences(k, entries)
  {
    TallyAdds(AllThemes(entries), map[], k);
    AllThemesCount(k, entries);
  }

  // ---------------------------------------------------------------------------
  // Object.entries, sort, slice
  // ---------------------------------------------------------------------------

  /** `Object.entries(map)` listed in the order `keys` gives. */
  function ObjectEntries(m: map<string, nat>, keys: seq<string>): (r: seq<ThemeCount>)
    requires forall k :: k in keys ==> k in m
    ensures |r| == |keys|
    ensures forall i :: 0 <= i < |r| ==> r[i] == ThemeCount(keys[i], m[keys[i]])
  {
    if |keys| == 0 then [] else [ThemeCount(keys[0], m[keys[0]])] + ObjectEntries(m, keys[1..])
  }

  /** Counts never increase along `s`. */
  predicate NonIncreasing(s: seq<ThemeCount>) {
    forall i, j :: 0 <= i < j < |s| ==> s[i].count >= s[j].count
  }

  /** Places `x` before the first element whose count does not exceed its own. */
  function Insert(x: ThemeCount, s: seq<ThemeCount>): (r: seq<ThemeCount>)
    requires NonIncreasing(s)
    ensures NonIncreasing(r)
    ensures multiset(r) == multiset(s) + multiset{x}
  {
    if |s| == 0 then [x]
    else if s[0].count <= x.count then [x] + s
    else
      var rest := Insert(x, s[1..]);
      assert s == [s[0]] + s[1..];
      assert forall j :: 0 <= j < |rest| ==> s[0].count >= rest[j].count by {
        forall j | 0 <= j < |rest|
          ensures s[0].count >= rest[j].count
        {
          assert rest[j] in multiset(rest);
          if rest[j] != x {
            assert rest[j] in multiset(s[1..]);
            var k :| 0 <= k < |s[1..]| && s[1..][k] == rest[j];
            assert s[k + 1] == rest[j];
          }
        }
      }
      [s[0]] + rest
  }

  /** `sort((a, b) => b[1] - a[1])`: a reordering with counts highest first. */
  function SortByCount(s: seq<ThemeCount>): (r: seq<ThemeCount>)
    ensures NonIncreasing(r)
    ensures multiset(r) == multiset(s)
  {
    if |s| == 0 then []
    else
      assert s == [s[0]] + s[1..];
      Insert(s[0], SortByCount(s[1..]))
  }

  /** No label appears twice in `s`. */
  predicate DistinctThemes(s: seq<ThemeCount>) {
    forall i, j :: 0 <= i < j < |s| ==> s[i].theme != s[j].theme
  }

  /** Some element of `s` carries the label `x`. */
  predicate Lists(s: seq<ThemeCount>, x: string) {
    exists i :: 0 <= i < |s| && s[i].theme == x
  }

  /** The counting object's entries, keys in the order they were first assigned. */
  function Pairs(entries: seq<Entry>): (r: seq<ThemeCount>)
    ensures forall p :: p in r ==> Faithful(p, entries)
    ensures Distinct(r)
    ensures forall x :: Occurrences(x, entries) > 0 ==> ThemeCount(x, Occurrences(x, entries)) in r
  {
    var m := CountMap(entries);
    var keys := FirstOccurrences(AllThemes(entries));
    assert forall k :: k in keys ==> k in m && m[k] == Occurrences(k, entries) > 0 by {
      forall k | k in keys
        ensures k in m && m[k] == Occurrences(k, entries) > 0
      {
        CountInPositive(k, AllThemes(entries));
        AllThemesCount(k, entries);
        CountMapCorrect(entries, k);
      }
    }
    var r := ObjectEntries(m, keys);
    assert forall x :: Occurrences(x, entries) > 0 ==> ThemeCount(x, Occurrences(x, entries)) in r by {
      forall x | Occurrences(x, entries) > 0
        ensures ThemeCount(x, Occurrences(x, entries)) in r
      {
        AllThemesCount(x, entries);
        CountInPositive(x, AllThemes(entries));
        var a :| 0 <= a < |keys| && keys[a] == x;
        assert r[a] == ThemeCount(x, Occurrences(x, entries));
      }
    }
    r
  }

  /**
   * The `themes` of the local reflection: the counting object's entries
   * sorted by count, highest first, cut to six.
   */
  function LocalThemes(entries: seq<Entry>): seq<ThemeCount> {
    Prefix(SortByCount(Pairs(entries)), TopThemeLimit)
  }

  /** `t` is a tally element whose count is the number of occurrences of its theme. */
  predicate Faithful(t: ThemeCount, entries: seq<Entry>) {
    t.count == Occurrences(t.theme, entries) && t.count > 0
  }

  /** Sorting keeps the pairs faithful, repeats no label and loses no label. */
  lemma SortedPairs(entries: seq<Entry>)
    ensures forall p :: p in SortByCount(Pairs(entries)) ==> Faithful(p, entries)
    ensures DistinctThemes(SortByCount(Pairs(entries)))
    ensures forall x :: Occurrences(x, entries) > 0 ==> ThemeCount(x, Occurrences(x, entries)) in SortByCount(Pairs(entries))
  {
    var pairs := Pairs(entries);
    var sorted := SortByCount(pairs);
    forall p | p in sorted
      ensures Faithful(p, entries)
    {
      assert p in multiset(sorted);
    }
    forall x | Occurrences(x, entries) > 0
      ensures ThemeCount(x, Occurrences(x, entries)) in sorted
    {
      assert ThemeCount(x, Occurrences(x, entries)) in multiset(pairs);
    }
    PermutationDistinct(pairs, sorted);
    forall i, j | 0 <= i < j < |sorted|
      ensures sorted[i].theme != sorted[j].theme
    {
      assert sorted[i] != sorted[j];
      assert sorted[i] in sorted && sorted[j] in sorted;
    }
  }

  /** A cut of a list sorted by count: whatever is cut away counts no more than what is kept. */
  lemma CutKeepsHighest(sorted: seq<ThemeCount>, n: nat, x: ThemeCount)
    requires NonIncreasing(sorted) && x in sorted && !Lists(Prefix(sorted, n), x.theme)
    ensures |Prefix(sorted, n)| == n
    ensures forall i :: 0 <= i < n ==> Prefix(sorted, n)[i].count >= x.count
  {
    var r := Prefix(sorted, n);
    var j :| 0 <= j < |sorted| && sorted[j] == x;
    assert j >= |r|;
  }

  /**
   * Cutting a faithful, label-distinct list sorted by count, that holds every
   * occurring label, keeps those properties and drops only labels that occur
   * no more often than any kept one.
   */
  lemma CutOfFaithful(sorted: seq<ThemeCount>, entries: seq<Entry>, n: nat)
    requires NonIncreasing(sorted) && DistinctThemes(sorted)
    requires forall p :: p in sorted ==> Faithful(p, entries)
    requires forall x :: Occurrences(x, entries) > 0 ==> ThemeCount(x, Occurrences(x, entries)) in sorted
    ensures |Prefix(sorted, n)| <= n
    ensures forall i :: 0 <= i < |Prefix(sorted, n)| ==> Faithful(Prefix(sorted, n)[i], entries)
    ensures DistinctThemes(Prefix(sorted, n)) && NonIncreasing(Prefix(sorted, n))
    ensures forall x :: Occurrences(x, entries) > 0 && !Lists(Prefix(sorted, n), x) ==>
      |Prefix(sorted, n)| == n
      && forall i :: 0 <= i < |Prefix(sorted, n)| ==> Prefix(sorted, n)[i].count >= Occurrences(x, entries)
  {
    var r := Prefix(sorted, n);
    assert forall i :: 0 <= i < |r| ==> r[i] == sorted[i];
    assert forall i :: 0 <= i < |r| ==> r[i] in sorted;
    forall x | Occurrences(x, entries) > 0 && !Lists(r, x)
      ensures |r| == n
      ensures forall i :: 0 <= i < |r| ==> r[i].count >= Occurrences(x, entries)
    {
      CutKeepsHighest(sorted, n, ThemeCount(x, Occurrences(x, entries)));
    }
  }

  /**
   * The local aggregation keeps at most six distinct labels, each with its
   * true number of occurrences, highest count first; a label left out occurs
   * no more often than any label kept, and is only left out when six are kept.
   */
  lemma LocalThemesSpec(entries: seq<Entry>)
    ensures |LocalThemes(entries)| <= TopThemeLimit
    ensures forall i :: 0 <= i < |LocalThemes(entries)| ==> Faithful(LocalThemes(entries)[i], entries)
    ensures DistinctThemes(LocalThemes(entries))
    ensures NonIncreasing(LocalThemes(entries))
    ensures forall x :: Occurrences(x, entries) > 0 && !Lists(LocalThemes(entries), x) ==>
      |LocalThemes(entries)| == TopThemeLimit
      && forall i :: 0 <= i < |LocalThemes(entries)| ==> LocalThemes(entries)[i].count >= Occurrences(x, entries)
  {
    SortedPairs(entries);
    CutOfFaithful(SortByCount(Pairs(entries)), entries, TopThemeLimit);
  }

  /** Every kept label is listed by some entry of the month. */
  lemma LocalThemesOccur(entries: seq<Entry>)
    ensures forall i :: 0 <= i < |LocalThemes(entries)| ==>
      exists k :: 0 <= k < |entries| && LocalThemes(entries)[i].theme in entries[k].themes
  {
    LocalThemesSpec(entries);
    forall i | 0 <= i < |LocalThemes(entries)|
      ensures exists k :: 0 <= k < |entries| && LocalThemes(entries)[i].theme in entries[k].themes
    {
      OccurrenceWitness(LocalThemes(entries)[i].theme, entries);
    }
  }

  // ---------------------------------------------------------------------------
  // The counting object as the code writes it
  // ---------------------------------------------------------------------------

  /** Properties every `{}` inherits from `Object.prototype`, other than `__proto__`. */
  const InheritedNames: set<string> := {
    "constructor", "hasOwnProperty", "isPrototypeOf", "propertyIsEnumerable",
    "toLocaleString", "toString", "valueOf",
    "__defineGetter__", "__defineSetter__", "__lookupGetter__", "__lookupSetter__"
  }

  const ProtoAccessor := "__proto__"

  /**
   * What a slot of the object literal holds after `(map[t] || 0) + 1`: a
   * number, or a string when `+` met an inherited method and concatenated.
   */
  datatype Slot = Counted(n: nat) | Concatenated

  /**
   * `map[t] = (map[t] || 0) + 1` on `{}` as JavaScript evaluates it. An own
   * property counts up. `__proto__` reads `Object.prototype`, and its setter
   * ignores the resulting string, so nothing is stored. An inherited method
   * is truthy, so `+ 1` concatenates and stores a string that stays a string.
   * Any other theme starts at 1.
   */
  function RawBump(m: map<string, Slot>, t: string): map<string, Slot> {
    if t in m then
      m[t := match m[t] case Counted(n) => Counted(n + 1) case Concatenated => Concatenated]
    else if t == ProtoAccessor then m
    else if t in InheritedNames then m[t := Concatenated]
    else m[t := Counted(1)]
  }

  function RawTally(labels: seq<string>, m: map<string, Slot>): map<string, Slot> {
    if |labels| == 0 then m else RawTally(labels[1..], RawBump(m, labels[0]))
  }

  /** A count map seen as an object whose slots all hold numbers. */
  function AsSlots(m: map<string, nat>): (r: map<string, Slot>)
    ensures r.Keys == m.Keys
    ensures forall k :: k in m ==> r[k] == Counted(m[k])
  {
    map k | k in m :: Counted(m[k])
  }

  /** Labels that are not `Object.prototype` names are counted as intended. */
  lemma {:induction false} RawTallyAgrees(labels: seq<string>, m: map<string, nat>)
    requires forall i :: 0 <= i < |labels| ==> labels[i] !in InheritedNames && labels[i] != ProtoAccessor
    ensures RawTally(labels, AsSlots(m)) == AsSlots(Tally(labels, m))
  {
    if |labels| > 0 {
      assert RawBump(AsSlots(m), labels[0]) == AsSlots(Bump(m, labels[0]));
      RawTallyAgrees(labels[1..], Bump(m, labels[0]));
    }
  }

  /**
   * One entry tagged `constructor` and `__proto__`: each theme occurs once,
   * yet the object as written holds a string for `constructor` and has no
   * slot for `__proto__`, while the intended tally counts both once.
   */
  lemma PrototypeLabelsMiscounted()
    ensures var e := [Entry("2025-01-01", Wrappers.None, "", Missing, ["constructor", ProtoAccessor])];
      && Occurrences("constructor", e) == 1 && Occurrences(ProtoAccessor, e) == 1
      && RawTally(AllThemes(e), map[]) == map["constructor" := Concatenated]
      && CountMap(e) == map["constructor" := 1, ProtoAccessor := 1]
  {
    var themes := ["constructor", ProtoAccessor];
    var e := [Entry("2025-01-01", Wrappers.None, "", Missing, themes)];
    assert "constructor" != ProtoAccessor;
    assert themes[1..] == [ProtoAccessor] && themes[1..][1..] == [];
    assert AllThemes(e) == themes by {
      assert e[1..] == [];
      assert themes + [] == themes;
    }
    assert CountIn("constructor", themes[1..][1..]) == 0 && CountIn(ProtoAccessor, themes[1..][1..]) == 0;
    assert CountIn("constructor", themes[1..]) == 0 && CountIn(ProtoAccessor, themes[1..]) == 1;
    assert CountIn("constructor", themes) == 1 && CountIn(ProtoAccessor, themes) == 1;
    assert Occurrences("constructor", e) == 1 && Occurrences(ProtoAccessor, e) == 1 by {
      assert e[1..] == [];
      assert Occurrences(ProtoAccessor, e) == CountIn(ProtoAccessor, themes) + Occurrences(ProtoAccessor, e[1..]);
    }
    var raw := RawBump(map[], "constructor");
    assert raw == map["constructor" := Concatenated];
    assert RawBump(raw, ProtoAccessor) == raw;
    assert RawTally(themes[1..][1..], raw) == raw;
    assert RawTally(themes[1..], raw) == raw;
    assert RawTally(themes, map[]) == raw;
    var m := Bump(map[], "constructor");
    var m2 := Bump(m, ProtoAccessor);
    assert Tally(themes[1..][1..], m2) == m2;
    assert Tally(themes[1..], m) == m2;
    assert Tally(themes, map[]) == m2;
  }
}
