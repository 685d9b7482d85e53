/**
 * The pure part of the JSON importer: state-name normalisation, answer
 * conversion, duplicate removal through a JavaScript `Map`, and the contact,
 * interview and responses built from each raw row.
 */
module DataImporter {
  import opened Wrappers
  import opened Js
  import opened Seqs
  import opened Text
  import opened Interview

  // ---------------------------------------------------------------------
  // removeDuplicates: a JavaScript Map as a sequence of entries
  // ---------------------------------------------------------------------

  /** Position of the entry for key `k` in a map's insertion-ordered entries. */
  function KeyIndex<K(==), V>(entries: seq<(K, V)>, k: K): (r: Option<nat>)
    ensures r.Some? ==> r.value < |entries| && entries[r.value].0 == k
    ensures r.None? ==> forall j :: 0 <= j < |entries| ==> entries[j].0 != k
  {
    if entries == [] then None
    else if entries[0].0 == k then Some(0)
    else match KeyIndex(entries[1..], k)
      case None => None
      case Some(i) => Some(i + 1)
  }

  /** `Map.prototype.set`: a present key keeps its place and takes the new
      value; a new key goes at the end. */
  function SetEntry<K(==), V>(entries: seq<(K, V)>, k: K, v: V): seq<(K, V)> {
    match KeyIndex(entries, k)
    case Some(i) => entries[i := (k, v)]
    case None => entries + [(k, v)]
  }

  /** `new Map(pairs)`: the pairs set one after the other. */
  function BuildMap<K(==), V>(pairs: seq<(K, V)>): seq<(K, V)>
    decreases |pairs|
  {
    if pairs == [] then []
    else SetEntry(BuildMap(pairs[..|pairs| - 1]), pairs[|pairs| - 1].0, pairs[|pairs| - 1].1)
  }

  function Values<K, V>(entries: seq<(K, V)>): (r: seq<V>)
    ensures |r| == |entries|
    ensures forall i :: 0 <= i < |entries| ==> r[i] == entries[i].1
  {
    if entries == [] then [] else [entries[0].1] + Values(entries[1..])
  }

  function Keyed<K, T>(items: seq<T>, key: T -> K): (r: seq<(K, T)>)
    ensures |r| == |items|
    ensures forall i :: 0 <= i < |items| ==> r[i] == (key(items[i]), items[i])
  {
    if items == [] then [] else [(key(items[0]), items[0])] + Keyed(items[1..], key)
  }

  /** `Array.from(new Map(items.map(x => [x[key], x])).values())` */
  function RemoveDuplicates<K(==), T>(items: seq<T>, key: T -> K): seq<T> {
    Values(BuildMap(Keyed(items, key)))
  }

  predicate DistinctKeys<K(==), V>(es: seq<(K, V)>) {
    forall a, b :: 0 <= a < b < |es| ==> es[a].0 != es[b].0
  }

  predicate HasKey<K(==), V>(es: seq<(K, V)>, k: K) {
    exists i :: 0 <= i < |es| && es[i].0 == k
  }

  /** The position where key `k` last occurs among the pairs. */
  function LastIndex<K(==), V>(ps: seq<(K, V)>, k: K): (i: nat)
    requires HasKey(ps, k)
    ensures i < |ps| && ps[i].0 == k
    ensures forall j :: i < j < |ps| ==> ps[j].0 != k
    decreases |ps|
  {
    if ps[|ps| - 1].0 == k then |ps| - 1
    else
      assert HasKey(ps[..|ps| - 1], k) by {
        var i :| 0 <= i < |ps| && ps[i].0 == k;
        assert ps[..|ps| - 1][i].0 == k;
      }
      LastIndex(ps[..|ps| - 1], k)
  }

  /** The position where key `k` first occurs among the pairs, or their
      number when it does not occur. */
  function FirstIndex<K(==), V>(ps: seq<(K, V)>, k: K): (i: nat)
    ensures i <= |ps|
    ensures i < |ps| ==> ps[i].0 == k
    ensures forall j :: 0 <= j < i ==> ps[j].0 != k
  {
    if ps == [] then 0
    else if ps[0].0 == k then 0
    else 1 + FirstIndex(ps[1..], k)
  }

  /** A key occurs exactly when its first position is inside the pairs. */
  lemma FirstIndexHasKey<K, V>(ps: seq<(K, V)>, k: K)
    ensures HasKey(ps, k) <==> FirstIndex(ps, k) < |ps|
  {
    if HasKey(ps, k) {
      var i :| 0 <= i < |ps| && ps[i].0 == k;
      assert FirstIndex(ps, k) <= i;
    }
  }

  /** Appending a pair does not move the first occurrence of a key that was
      already there. */
  lemma FirstIndexSnoc<K, V>(ps: seq<(K, V)>, e: (K, V), k: K)
    requires HasKey(ps, k)
    ensures HasKey(ps + [e], k)
    ensures FirstIndex(ps + [e], k) == FirstIndex(ps, k)
  {
    FirstIndexHasKey(ps, k);
    var i := FirstIndex(ps, k);
    assert (ps + [e])[i].0 == k;
    assert forall j :: 0 <= j < i ==> (ps + [e])[j] == ps[j];
  }

  /** Setting one entry keeps the keys distinct, and either overwrites the
      entry with that key in place or appends a new one. */
  lemma SetEntrySpec<K, V>(es: seq<(K, V)>, k: K, v: V)
    requires DistinctKeys(es)
    ensures DistinctKeys(SetEntry(es, k, v))
    ensures HasKey(es, k) ==> |SetEntry(es, k, v)| == |es|
    ensures !HasKey(es, k) ==> SetEntry(es, k, v) == es + [(k, v)]
    ensures forall a :: 0 <= a < |es| ==>
      SetEntry(es, k, v)[a] == if es[a].0 == k then (k, v) else es[a]
  {
    match KeyIndex(es, k)
    case Some(i) =>
      forall a | 0 <= a < |es| && es[a].0 == k
        ensures a == i
      {
      }
    case None =>
  }

  /** What `new Map(pairs)` holds: pairwise-distinct keys, exactly the keys
      of the pairs, for each key the pair that occurs last, and the keys in
      the order of their first occurrence. */
  lemma BuildMapSpec<K, V>(ps: seq<(K, V)>)
    ensures DistinctKeys(BuildMap(ps))
    ensures forall k :: HasKey(BuildMap(ps), k) <==> HasKey(ps, k)
    ensures forall a :: 0 <= a < |BuildMap(ps)| ==>
      HasKey(ps, BuildMap(ps)[a].0) && BuildMap(ps)[a] == ps[LastIndex(ps, BuildMap(ps)[a].0)]
    ensures forall a, b :: 0 <= a < b < |BuildMap(ps)| ==>
      FirstIndex(ps, BuildMap(ps)[a].0) < FirstIndex(ps, BuildMap(ps)[b].0)
  {
    BuildMapDistinct(ps);
    BuildMapHasKeys(ps);
    BuildMapLastOnes(ps);
    BuildMapFirstOrder(ps);
  }

  lemma {:induction false} BuildMapDistinct<K, V>(ps: seq<(K, V)>)
    ensures DistinctKeys(BuildMap(ps))
  {
    if ps != [] {
      var q := ps[..|ps| - 1];
      var e := ps[|ps| - 1];
      assert ps == q + [e];
      assert BuildMap(ps) == SetEntry(BuildMap(q), e.0, e.1);
      BuildMapDistinct(q);
      SetEntrySpec(BuildMap(q), e.0, e.1);
    }
  }

  lemma {:induction false} BuildMapHasKeys<K, V>(ps: seq<(K, V)>)
    ensures forall k :: HasKey(BuildMap(ps), k) <==> HasKey(ps, k)
  {
    if ps != [] {
      var q := ps[..|ps| - 1];
      var e := ps[|ps| - 1];
      assert ps == q + [e];
      assert BuildMap(ps) == SetEntry(BuildMap(q), e.0, e.1);
      BuildMapDistinct(q);
      BuildMapHasKeys(q);
      BuildMapKeys(q, e, ps, BuildMap(q), BuildMap(ps));
    }
  }

  lemma {:induction false} BuildMapLastOnes<K, V>(ps: seq<(K, V)>)
    ensures forall a :: 0 <= a < |BuildMap(ps)| ==>
      HasKey(ps, BuildMap(ps)[a].0) && BuildMap(ps)[a] == ps[LastIndex(ps, BuildMap(ps)[a].0)]
  {
    if ps != [] {
      var q := ps[..|ps| - 1];
      var e := ps[|ps| - 1];
      assert ps == q + [e];
      assert BuildMap(ps) == SetEntry(BuildMap(q), e.0, e.1);
      BuildMapDistinct(q);
      BuildMapHasKeys(q);
      BuildMapLastOnes(q);
      BuildMapLast(q, e, ps, BuildMap(q), BuildMap(ps));
    } else {
      assert BuildMap(ps) == [];
    }
  }

  /** The entries' keys appear in the order of their first occurrence among
      the pairs. */
  predicate InFirstOrder<K(==), V>(ps: seq<(K, V)>, m: seq<(K, V)>) {
    forall a, b :: 0 <= a < b < |m| ==>
      FirstIndex(ps, m[a].0) < FirstIndex(ps, m[b].0)
  }

  lemma {:induction false} BuildMapFirstOrder<K, V>(ps: seq<(K, V)>)
    ensures InFirstOrder(ps, BuildMap(ps))
  {
    if ps != [] {
      var q := ps[..|ps| - 1];
      var e := ps[|ps| - 1];
      assert ps == q + [e];
      assert BuildMap(ps) == SetEntry(BuildMap(q), e.0, e.1);
      BuildMapDistinct(q);
      BuildMapHasKeys(q);
      BuildMapFirstOrder(q);
      BuildMapOrder(q, e, ps, BuildMap(q), BuildMap(ps));
    } else {
      assert BuildMap(ps) == [];
    }
  }

  lemma BuildMapKeys<K, V>(q: seq<(K, V)>, e: (K, V), ps: seq<(K, V)>, m: seq<(K, V)>, m': seq<(K, V)>)
    requires ps == q + [e]
    requires DistinctKeys(m)
    requires forall k :: HasKey(m, k) <==> HasKey(q, k)
    requires m' == SetEntry(m, e.0, e.1)
    ensures forall k :: HasKey(m', k) <==> HasKey(ps, k)
  {
    SetEntrySpec(m, e.0, e.1);
    assert ps[|q|].0 == e.0;
    forall k
      ensures HasKey(m', k) <==> HasKey(ps, k)
    {
      if HasKey(m', k) && k != e.0 {
        var a :| 0 <= a < |m'| && m'[a].0 == k;
        if a < |m| {
          assert m[a].0 == k;
        } else {
          assert false;
        }
        assert HasKey(m, k);
        var i :| 0 <= i < |q| && q[i].0 == k;
        assert ps[i].0 == k;
      }
      if HasKey(ps, k) {
        var i :| 0 <= i < |ps| && ps[i].0 == k;
        if i < |q| {
          assert q[i].0 == k;
          assert HasKey(q, k);
          var a :| 0 <= a < |m| && m[a].0 == k;
          assert m'[a].0 == k;
        } else if HasKey(m, k) {
          var a :| 0 <= a < |m| && m[a].0 == k;
          assert m'[a].0 == k;
        } else {
          assert m'[|m|].0 == k;
        }
      }
    }
  }

  lemma BuildMapLast<K, V>(q: seq<(K, V)>, e: (K, V), ps: seq<(K, V)>, m: seq<(K, V)>, m': seq<(K, V)>)
    requires ps == q + [e]
    requires DistinctKeys(m)
    requires forall k :: HasKey(m, k) <==> HasKey(q, k)
    requires forall a :: 0 <= a < |m| ==> HasKey(q, m[a].0) && m[a] == q[LastIndex(q, m[a].0)]
    requires m' == SetEntry(m, e.0, e.1)
    ensures forall a :: 0 <= a < |m'| ==> HasKey(ps, m'[a].0) && m'[a] == ps[LastIndex(ps, m'[a].0)]
  {
    SetEntrySpec(m, e.0, e.1);
    assert ps[..|ps| - 1] == q;
    assert ps[|q|] == e;
    forall a | 0 <= a < |m'|
      ensures HasKey(ps, m'[a].0) && m'[a] == ps[LastIndex(ps, m'[a].0)]
    {
      var k := m'[a].0;
      if k == e.0 {
        assert LastIndex(ps, k) == |q|;
        if a < |m| {
          assert m'[a] == (e.0, e.1);
        } else {
          assert m' == m + [(e.0, e.1)];
        }
      } else {
        assert a < |m| && m'[a] == m[a];
        var i := LastIndex(q, k);
        assert ps[i].0 == k;
        assert LastIndex(ps, k) == LastIndex(q, k);
      }
    }
  }

  lemma BuildMapOrder<K, V>(q: seq<(K, V)>, e: (K, V), ps: seq<(K, V)>, m: seq<(K, V)>, m': seq<(K, V)>)
    requires ps == q + [e]
    requires DistinctKeys(m)
    requires forall k :: HasKey(m, k) <==> HasKey(q, k)
    requires InFirstOrder(q, m)
    requires m' == SetEntry(m, e.0, e.1)
    ensures InFirstOrder(ps, m')
  {
    SetEntrySpec(m, e.0, e.1);
    if HasKey(m, e.0) {
      BuildMapOrderOverwrite(q, e, ps, m, m');
    } else {
      BuildMapOrderAppend(q, e, ps, m, m');
    }
  }

  /** An entry of `m` keeps its first position once a pair is appended. */
  lemma OldEntryFirst<K, V>(q: seq<(K, V)>, e: (K, V), ps: seq<(K, V)>, m: seq<(K, V)>, a: nat)
    requires ps == q + [e]
    requires forall k :: HasKey(m, k) <==> HasKey(q, k)
    requires a < |m|
    ensures HasKey(q, m[a].0) && FirstIndex(q, m[a].0) < |q|
    ensures FirstIndex(ps, m[a].0) == FirstIndex(q, m[a].0)
  {
    assert HasKey(m, m[a].0);
    FirstIndexSnoc(q, e, m[a].0);
    FirstIndexHasKey(q, m[a].0);
  }

  lemma BuildMapOrderOverwrite<K, V>(q: seq<(K, V)>, e: (K, V), ps: seq<(K, V)>, m: seq<(K, V)>, m': seq<(K, V)>)
    requires ps == q + [e]
    requires forall k :: HasKey(m, k) <==> HasKey(q, k)
    requires InFirstOrder(q, m)
    requires |m'| == |m| && forall a :: 0 <= a < |m| ==> m'[a].0 == m[a].0
    ensures InFirstOrder(ps, m')
  {
    forall a, b {:trigger m'[a], m'[b]} | 0 <= a < b < |m'|
      ensures FirstIndex(ps, m'[a].0) < FirstIndex(ps, m'[b].0)
    {
      OldEntryFirst(q, e, ps, m, a);
      OldEntryFirst(q, e, ps, m, b);
      assert FirstIndex(q, m[a].0) < FirstIndex(q, m[b].0);
    }
  }

  lemma BuildMapOrderAppend<K, V>(q: seq<(K, V)>, e: (K, V), ps: seq<(K, V)>, m: seq<(K, V)>, m': seq<(K, V)>)
    requires ps == q + [e]
    requires forall k :: HasKey(m, k) <==> HasKey(q, k)
    requires !HasKey(m, e.0)
    requires InFirstOrder(q, m)
    requires m' == m + [(e.0, e.1)]
    ensures InFirstOrder(ps, m')
  {
    assert ps[|q|].0 == e.0;
    assert FirstIndex(ps, e.0) == |q|;
    forall a, b {:trigger m'[a], m'[b]} | 0 <= a < b < |m'|
      ensures FirstIndex(ps, m'[a].0) < FirstIndex(ps, m'[b].0)
    {
      OldEntryFirst(q, e, ps, m, a);
      assert m'[a] == m[a];
      if b < |m| {
        OldEntryFirst(q, e, ps, m, b);
        assert m'[b] == m[b];
        assert FirstIndex(q, m[a].0) < FirstIndex(q, m[b].0);
      } else {
        assert m'[b].0 == e.0;
        FirstIndexHasKey(q, m[a].0);
      }
    }
  }

  /** Each entry of the map built from `items` is keyed by the key of its
      value, and the keys are exactly those of the items. */
  lemma SurvivorKeys<K, T>(items: seq<T>, key: T -> K)
    ensures var m := BuildMap(Keyed(items, key));
      && DistinctKeys(m)
      && (forall k :: HasKey(m, k) <==> HasKey(Keyed(items, key), k))
      && (forall a :: 0 <= a < |m| ==> m[a].0 == key(m[a].1))
  {
    var ps := Keyed(items, key);
    var m := BuildMap(ps);
    BuildMapDistinct(ps);
    BuildMapHasKeys(ps);
    BuildMapLastOnes(ps);
    forall a | 0 <= a < |m|
      ensures m[a].0 == key(m[a].1)
    {
      assert m[a] == ps[LastIndex(ps, m[a].0)];
    }
  }

  /** `removeDuplicates(items, key)`: no two results share a key. */
  lemma RemoveDuplicatesDistinct<K, T>(items: seq<T>, key: T -> K)
    ensures var r := RemoveDuplicates(items, key);
      forall a, b :: 0 <= a < b < |r| ==> key(r[a]) != key(r[b])
  {
    SurvivorKeys(items, key);
  }

  /** Each survivor of `removeDuplicates` is the last input item with its key. */
  lemma RemoveDuplicatesLast<K, T>(items: seq<T>, key: T -> K)
    ensures var r := RemoveDuplicates(items, key);
      forall a :: 0 <= a < |r| ==>
        exists i :: 0 <= i < |items| && items[i] == r[a]
          && forall j :: i < j < |items| ==> key(items[j]) != key(items[i])
  {
    var ps := Keyed(items, key);
    var m := BuildMap(ps);
    var r := RemoveDuplicates(items, key);
    BuildMapLastOnes(ps);
    forall a | 0 <= a < |r|
      ensures exists i :: (0 <= i < |items| && items[i] == r[a]
        && forall j :: i < j < |items| ==> key(items[j]) != key(items[i]))
    {
      var i := LastIndex(ps, m[a].0);
      assert ps[i] == m[a];
      assert items[i] == r[a];
      forall j | i < j < |items|
        ensures key(items[j]) != key(items[i])
      {
        assert ps[j].0 != ps[i].0;
      }
    }
  }

  /** Every key of the input survives `removeDuplicates`. */
  lemma RemoveDuplicatesKeys<K, T>(items: seq<T>, key: T -> K)
    ensures var r := RemoveDuplicates(items, key);
      forall i :: 0 <= i < |items| ==> exists a :: 0 <= a < |r| && key(r[a]) == key(items[i])
  {
    var ps := Keyed(items, key);
    var m := BuildMap(ps);
    var r := RemoveDuplicates(items, key);
    SurvivorKeys(items, key);
    forall i | 0 <= i < |items|
      ensures exists a :: 0 <= a < |r| && key(r[a]) == key(items[i])
    {
      assert ps[i].0 == key(items[i]);
      assert HasKey(ps, key(items[i]));
      var a :| 0 <= a < |m| && m[a].0 == key(items[i]);
      assert key(r[a]) == key(items[i]);
    }
  }

  /** Survivors of `removeDuplicates` come in the order their keys first
      occur in the input. */
  lemma RemoveDuplicatesOrder<K, T>(items: seq<T>, key: T -> K)
    ensures var r := RemoveDuplicates(items, key);
      forall a, b :: 0 <= a < b < |r| ==>
        FirstIndex(Keyed(items, key), key(r[a])) < FirstIndex(Keyed(items, key), key(r[b]))
  {
    BuildMapFirstOrder(Keyed(items, key));
    SurvivorKeys(items, key);
  }

  // ---------------------------------------------------------------------
  // normalizeStateName
  // ---------------------------------------------------------------------

  const NotProvided := "Not Provided"

  /** The alias literal as written: two of its keys are in upper case. */
  const AliasTableAsWritten: map<string, string> := map[
    "FCT" := "FCT",
    "Abj" := "FCT",
    "Abuja" := "FCT",
    "Lag" := "Lagos",
    "Ibadan" := "Oyo",
    "PH" := "Rivers",
    "Port Harcourt" := "Rivers",
    "Kd" := "Kaduna"]

  /** `normalizeStateName` as JavaScript evaluates it. `raw` is `None` when the
      field is undefined or null; `states` is the list of state names. */
  function NormalizeStateNameAsWritten(raw: Option<string>, states: seq<string>): (r: Looked<string>)
    ensures raw.None? || raw.value == "" || raw.value == NotProvided ==> r == Found(NotProvided)
    ensures raw.Some? && raw.value != "" && raw.value != NotProvided && TitleCase(raw.value) in states ==>
      r == Found(TitleCase(raw.value))
  {
    if raw.None? || raw.value == "" || raw.value == NotProvided then Found(NotProvided)
    else
      var title := TitleCase(raw.value);
      if title in states then Found(title)
      else LookupOr(AliasTableAsWritten, title, NotProvided)
  }

  /** Title casing never produces the keys `FCT` or `PH`: their second letter
      follows a word character, so it always comes out in lower case. */
  lemma AliasKeysUnreachable(s: string)
    ensures TitleCase(s) != "FCT" && TitleCase(s) != "PH"
  {
    if |s| >= 2 && IsWordChar(TitleCase(s)[0]) {
      var t := TitleCase(s);
      assert IsWordChar(ToLower(s)[0]);
      LowerKeepsWordChar(s[0]);
      TitleCaseInner(s, 1);
    }
  }

  /** So `PH` (in any case) is not recognised as Rivers, and `FCT` (in any
      case) only if the state list holds `Fct`. */
  lemma PortHarcourtAbbreviationLost(states: seq<string>)
    requires "Ph" !in states
    ensures NormalizeStateNameAsWritten(Some("PH"), states) == Found(NotProvided)
    ensures NormalizeStateNameAsWritten(Some("ph"), states) == Found(NotProvided)
  {
    assert TitleCase("PH") == "Ph";
    assert TitleCase("ph") == "Ph";
  }

  lemma ProtoTitleCase()
    ensures TitleCase("__proto__") == "__proto__"
  {
    TitleCaseOneWord("__proto__");
  }

  /** `__proto__` survives title casing and reads the prototype object
      instead of a state name. */
  lemma ProtoStateInherits(states: seq<string>)
    requires "__proto__" !in states
    ensures NormalizeStateNameAsWritten(Some("__proto__"), states) == Inherited("__proto__")
  {
    ProtoTitleCase();
    ProtoNotAlias();
    assert "__proto__" in PrototypeKeys;
    assert LookupOr(AliasTableAsWritten, "__proto__", NotProvided) == Inherited("__proto__");
  }

  lemma ProtoNotAlias()
    ensures "__proto__" !in AliasTableAsWritten
  {
  }

  /** The alias table keyed as it is looked up: by the title-cased spelling. */
  const AliasTable: map<string, string> := map[
    "Fct" := "FCT",
    "Abj" := "FCT",
    "Abuja" := "FCT",
    "Lag" := "Lagos",
    "Ibadan" := "Oyo",
    "Ph" := "Rivers",
    "Port Harcourt" := "Rivers",
    "Kd" := "Kaduna"]

  const AliasTargets: set<string> := {"FCT", "Lagos", "Oyo", "Rivers", "Kaduna"}

  /** `normalizeStateName` as intended: empty or `Not Provided` input gives
      `Not Provided`; a title-cased listed state is returned; otherwise the
      title-cased alias decides, and anything else is `Not Provided`. */
  function NormalizeStateName(raw: Option<string>, states: seq<string>): (r: string)
    ensures r in states || r in AliasTargets || r == NotProvided
    ensures raw.None? || raw.value == "" || raw.value == NotProvided ==> r == NotProvided
    ensures raw.Some? && raw.value != "" && raw.value != NotProvided ==>
      var title := TitleCase(raw.value);
      && (title in states ==> r == title)
      && (title !in states && title in AliasTable ==> r == AliasTable[title])
      && (title !in states && title !in AliasTable ==> r == NotProvided)
  {
    if raw.None? || raw.value == "" || raw.value == NotProvided then NotProvided
    else
      var title := TitleCase(raw.value);
      if title in states then title
      else if title in AliasTable then AliasTable[title]
      else NotProvided
  }

  /** Every alias is reachable: written in any case, it maps to its target. */
  lemma AliasesReachable(states: seq<string>)
    requires forall k :: k in AliasTable ==> k !in states
    ensures NormalizeStateName(Some("PH"), states) == "Rivers"
    ensures NormalizeStateName(Some("fct"), states) == "FCT"
  {
    assert TitleCase("PH") == "Ph";
    assert TitleCase("fct") == "Fct";
  }

  /** Away from the two unreachable keys and the inherited member names, the
      code as written and the intended table agree. */
  lemma NormalizeStateNameAgrees(raw: Option<string>, states: seq<string>)
    requires raw.Some? ==> TitleCase(raw.value) !in {"Fct", "Ph"} && TitleCase(raw.value) !in PrototypeKeys
    ensures NormalizeStateNameAsWritten(raw, states) == Found(NormalizeStateName(raw, states))
  {
    if raw.Some? {
      AliasKeysUnreachable(raw.value);
    }
  }

  // ---------------------------------------------------------------------
  // convertAnswer
  // ---------------------------------------------------------------------

  const ScaleTable: map<string, int> := map[
    "Poor" := 1,
    "Fair" := 2,
    "Good" := 3,
    "Very Good" := 4,
    "Excellent" := 5]

  /** The property name a value turns into when used as a key. Only strings
      can name an inherited member; other values become strings that do not. */
  function KeyName(v: JsValue): Option<string> {
    if v.Str? then Some(v.s) else None
  }

  /** `convertAnswer` as JavaScript evaluates it. */
  function ConvertAnswerAsWritten(value: JsValue, qtype: string): (r: Looked<JsValue>)
    ensures qtype != "scale" ==> r == Found(value)
  {
    if qtype == "scale" then
      match KeyName(value)
      case None => Found(Num(3))
      case Some(k) =>
        match LookupOr(ScaleTable, k, 3)
        case Found(n) => Found(Num(n))
        case Inherited(name) => Inherited(name)
    else Found(value)
  }

  /** A scale answer spelled like an inherited member is not a number. */
  lemma ScaleAnswerInherits()
    ensures ConvertAnswerAsWritten(Str("constructor"), "scale") == Inherited("constructor")
    ensures ConvertAnswerAsWritten(Str("valueOf"), "scale") == Inherited("valueOf")
  {
  }

  /** `convertAnswer` as intended: a scale answer is always a rating from 1
      to 5, the five words in order and 3 for anything else; any other type
      passes the value through. */
  function ConvertAnswer(value: JsValue, qtype: string): (r: JsValue)
    ensures qtype == "scale" ==> r.Num? && 1 <= r.n <= 5
    ensures qtype == "scale" && value.Str? && value.s in ScaleTable ==> r == Num(ScaleTable[value.s])
    ensures qtype == "scale" && !(value.Str? && value.s in ScaleTable) ==> r == Num(3)
    ensures qtype != "scale" ==> r == value
  {
    if qtype == "scale" then
      if value.Str? && value.s in ScaleTable then Num(ScaleTable[value.s]) else Num(3)
    else value
  }

  /** Outside the inherited member names the code as written and the intended
      conversion agree. */
  lemma ConvertAnswerAgrees(value: JsValue, qtype: string)
    requires value.Str? ==> value.s !in PrototypeKeys
    ensures ConvertAnswerAsWritten(value, qtype) == Found(ConvertAnswer(value, qtype))
  {
  }

  /** The scale words are ranked in order. */
  lemma ScaleOrdered()
    ensures ConvertAnswer(Str("Poor"), "scale") == Num(1)
    ensures ConvertAnswer(Str("Fair"), "scale") == Num(2)
    ensures ConvertAnswer(Str("Good"), "scale") == Num(3)
    ensures ConvertAnswer(Str("Very Good"), "scale") == Num(4)
    ensures ConvertAnswer(Str("Excellent"), "scale") == Num(5)
    ensures ConvertAnswer(Str("poor"), "scale") == Num(3)
  {
    assert "poor" !in ScaleTable;
  }

  // ---------------------------------------------------------------------
  // The records built from each row
  // ---------------------------------------------------------------------

  /** One row of the export, reduced to the columns the importer reads:
      serial number, customer name, phone, state (`None` when undefined or
      null), CUID, call date and start time. `answers` holds the remaining
      columns by their header; a missing column reads as `undefined`. */
  datatype RawItem = RawItem(
    serialNumber: int,
    name: string,
    phone: string,
    state: Option<string>,
    cuid: int,
    callDate: string,
    startTime: string,
    answers: map<string, JsValue>)

  datatype QuestionMapping = QuestionMapping(key: string, id: int, qtype: string)

  /** The survey columns turned into responses, with their question ids. */
  const QuestionMappings: seq<QuestionMapping> := [
    QuestionMapping("3a: Respecting you as a person .", 301, "scale"),
    QuestionMapping("3b: Letting you say what matters to you about your family planning method .", 302, "scale"),
    QuestionMapping("3c: Taking what you prefer seriously .", 303, "scale"),
    QuestionMapping("3d: Giving you enough information to make the best decision about your method .", 304, "scale"),
    QuestionMapping("4a: Respecting you as a person", 401, "scale"),
    QuestionMapping("4b : Letting you say what matters to you about your family planning method .", 402, "scale"),
    QuestionMapping("4c: Taking what you prefer seriously .", 403, "scale"),
    QuestionMapping("Q7: Overall, how satisfied have you been with your method? You can say \"not satisfied\", \"somewhat satisfied\" or \"very satisfied\"", 701, "multiple_choice"),
    QuestionMapping("Q8: Are you still using the same method, a different method, or no longer using a method?", 801, "multiple_choice")]

  /** `item[key]` */
  function Column(item: RawItem, key: string): JsValue {
    if key in item.answers then item.answers[key] else Undefined
  }

  /** The partial contact built from a row. */
  datatype ImportedContact = ImportedContact(
    id: int,
    name: string,
    phone: string,
    email: string,
    status: string,
    createdAt: string,
    lastContact: string,
    interviewCount: int)

  /** The partial interview built from a row. */
  datatype ImportedInterview = ImportedInterview(
    id: int,
    contactId: int,
    status: Status,
    startedAt: string,
    completedAt: string,
    cursor: int)

  /** The generated address: the lowercased name with every run of
      whitespace turned into one dot, at `example.com`. */
  function Email(name: string): (r: string)
    ensures |r| >= |EmailDomain| && r[|r| - |EmailDomain|..] == EmailDomain
    ensures forall i :: 0 <= i < |r| ==> !IsSpace(r[i])
    ensures forall i :: 0 <= i < |r| - |EmailDomain| ==> !IsUpperAscii(r[i])
    ensures r[..|r| - |EmailDomain|] == CollapseSpaces(ToLower(name), '.')
  {
    var local := CollapseSpaces(ToLower(name), '.');
    CollapseKeepsLower(ToLower(name));
    DomainHasNoSpace();
    assert (local + EmailDomain)[|local|..] == EmailDomain;
    assert (local + EmailDomain)[..|local|] == local;
    local + EmailDomain
  }

  const EmailDomain := "@example.com"

  /** A two-word name with a double space between the words. */
  lemma EmailOfTwoWords()
    ensures Email("Ada  Obi") == "ada.obi" + EmailDomain
  {
    LocalPartOfTwoWords();
    EmailSplit("Ada  Obi");
  }

  /** The address is its local part followed by the domain. */
  lemma EmailSplit(name: string)
    ensures Email(name) == CollapseSpaces(ToLower(name), '.') + EmailDomain
  {
    var r := Email(name);
    var k := |r| - |EmailDomain|;
    assert r == r[..k] + r[k..];
  }

  lemma LocalPartOfTwoWords()
    ensures CollapseSpaces(ToLower("Ada  Obi"), '.') == "ada.obi"
  {
    LowerOfTwoWords();
    TwoWordsJoined("ada", "  ", "obi");
    assert "ada" + "  " + "obi" == "ada  obi";
    assert "ada" + ['.'] + "obi" == "ada.obi";
  }

  /** Two whitespace-free words around one whitespace run are joined by a dot. */
  lemma TwoWordsJoined(a: string, w: string, b: string)
    requires forall i :: 0 <= i < |a| ==> !IsSpace(a[i])
    requires |w| > 0 && forall i :: 0 <= i < |w| ==> IsSpace(w[i])
    requires forall i :: 0 <= i < |b| ==> !IsSpace(b[i])
    ensures CollapseSpaces(a + w + b, '.') == a + ['.'] + b
  {
    CollapseSpacesRun(a, w, b, '.');
  }

  lemma LowerOfTwoWords()
    ensures ToLower("Ada  Obi") == "ada  obi"
  {
    var lowered := ToLower("Ada  Obi");
    assert lowered[0] == 'a' && lowered[5] == 'o';
  }

  lemma DomainHasNoSpace()
    ensures forall i :: 0 <= i < |EmailDomain| ==> !IsSpace(EmailDomain[i])
  {
  }

  /** Collapsing whitespace into dots adds no upper-case letter. */
  lemma {:induction false} CollapseKeepsLower(s: string)
    requires forall i :: 0 <= i < |s| ==> !IsUpperAscii(s[i])
    ensures forall i :: 0 <= i < |CollapseSpaces(s, '.')| ==> !IsUpperAscii(CollapseSpaces(s, '.')[i])
    decreases |s|
  {
    if s != [] {
      if IsSpace(s[0]) {
        var rest := DropSpaces(s);
        assert forall i :: 0 <= i < |rest| ==> !IsUpperAscii(rest[i]) by {
          DropSpacesSuffix(s);
        }
        CollapseKeepsLower(rest);
      } else {
        CollapseKeepsLower(s[1..]);
      }
    }
  }

  lemma {:induction false} DropSpacesSuffix(s: string)
    ensures |DropSpaces(s)| <= |s| && DropSpaces(s) == s[|s| - |DropSpaces(s)|..]
  {
    if s != [] && IsSpace(s[0]) {
      DropSpacesSuffix(s[1..]);
    }
  }

  function RowContact(item: RawItem): ImportedContact {
    ImportedContact(item.cuid, item.name, item.phone, Email(item.name), "not_started",
      item.callDate, item.startTime, 1)
  }

  function RowInterview(item: RawItem): ImportedInterview {
    ImportedInterview(item.serialNumber, item.cuid, Completed, item.startTime, item.startTime, 0)
  }

  /** Whether a mapped column holds a truthy value in this row. */
  function Present(item: RawItem): QuestionMapping -> bool {
    (m: QuestionMapping) => Truthy(Column(item, m.key))
  }

  /** The response recorded for a mapped column. */
  function ResponseFor(item: RawItem): QuestionMapping -> Response {
    (m: QuestionMapping) => Response(m.id, ConvertAnswer(Column(item, m.key), m.qtype), Some(item.startTime))
  }

  /** The responses for the survey columns: one per truthy column, in
      mapping order. */
  function MappedResponses(item: RawItem, ms: seq<QuestionMapping>): seq<Response> {
    Map(ResponseFor(item), Filter(Present(item), ms))
  }

  /** The three identification responses every row yields. */
  function IdentityResponses(item: RawItem, states: seq<string>): seq<Response> {
    [Response(101, Str(item.name), Some(item.startTime)),
     Response(102, Str(item.phone), Some(item.startTime)),
     Response(103, Str(NormalizeStateName(item.state, states)), Some(item.startTime))]
  }

  /** The responses one row yields, for the survey columns `ms`. */
  function RowResponses(item: RawItem, ms: seq<QuestionMapping>, states: seq<string>): seq<Response> {
    MappedResponses(item, ms) + IdentityResponses(item, states)
  }

  function AllResponses(rows: seq<RawItem>, ms: seq<QuestionMapping>, states: seq<string>): seq<Response>
    decreases |rows|
  {
    if rows == [] then []
    else AllResponses(rows[..|rows| - 1], ms, states) + RowResponses(rows[|rows| - 1], ms, states)
  }

  function ContactKey(c: ImportedContact): int { c.id }

  function InterviewKey(iv: ImportedInterview): int { iv.id }

  /** What one row yields: a `not_started` contact keyed by the CUID with
      interview count 1, a `completed` interview at position 0, and one
      response per truthy survey column, in column order, followed by the
      name, phone and state responses 101, 102 and 103. */
  lemma RowSpec(item: RawItem, ms: seq<QuestionMapping>, states: seq<string>)
    ensures RowContact(item).id == item.cuid && RowContact(item).status == "not_started"
    ensures RowContact(item).interviewCount == 1
    ensures RowInterview(item).contactId == item.cuid && RowInterview(item).status == Completed
    ensures RowInterview(item).cursor == 0
    ensures var rs := RowResponses(item, ms, states);
      && |rs| == |Filter(Present(item), ms)| + 3
      && rs[|rs| - 3] == Response(101, Str(item.name), Some(item.startTime))
      && rs[|rs| - 2] == Response(102, Str(item.phone), Some(item.startTime))
      && rs[|rs| - 1] == Response(103, Str(NormalizeStateName(item.state, states)), Some(item.startTime))
  {
  }

  /** The survey responses of a row are exactly the truthy columns' responses. */
  lemma MappedResponsesSpec(item: RawItem, ms: seq<QuestionMapping>)
    ensures forall r :: r in MappedResponses(item, ms) ==>
      exists m :: m in ms && Truthy(Column(item, m.key)) && r == ResponseFor(item)(m)
    ensures forall m :: m in ms && Truthy(Column(item, m.key)) ==>
      ResponseFor(item)(m) in MappedResponses(item, ms)
  {
    var kept := Filter(Present(item), ms);
    FilterMembers(Present(item), ms);
    forall r | r in MappedResponses(item, ms)
      ensures exists m :: m in ms && Truthy(Column(item, m.key)) && r == ResponseFor(item)(m)
    {
      var i :| 0 <= i < |kept| && MappedResponses(item, ms)[i] == r;
      assert kept[i] in kept;
    }
    forall m | m in ms && Truthy(Column(item, m.key))
      ensures ResponseFor(item)(m) in MappedResponses(item, ms)
    {
      assert m in kept;
      var i :| 0 <= i < |kept| && kept[i] == m;
      assert MappedResponses(item, ms)[i] == ResponseFor(item)(m);
    }
  }

  /** `importDataFromJson` after the fetch: one pass over the rows building
      contacts, interviews and responses, then duplicate contacts and
      interviews removed by id. */
  method ImportRows(rows: seq<RawItem>, states: seq<string>)
    returns (contacts: seq<ImportedContact>, interviews: seq<ImportedInterview>, responses: seq<Response>)
    ensures contacts == RemoveDuplicates(Map(RowContact, rows), ContactKey)
    ensures interviews == RemoveDuplicates(Map(RowInterview, rows), InterviewKey)
    ensures responses == AllResponses(rows, QuestionMappings, states)
  {
    contacts, interviews, responses := ImportRowsWith(rows, QuestionMappings, states);
  }

  /** The pass itself, over the survey columns `ms`. */
  method ImportRowsWith(rows: seq<RawItem>, ms: seq<QuestionMapping>, states: seq<string>)
    returns (contacts: seq<ImportedContact>, interviews: seq<ImportedInterview>, responses: seq<Response>)
    ensures contacts == RemoveDuplicates(Map(RowContact, rows), ContactKey)
    ensures interviews == RemoveDuplicates(Map(RowInterview, rows), InterviewKey)
    ensures responses == AllResponses(rows, ms, states)
  {
    var allContacts: seq<ImportedContact> := [];
    var allInterviews: seq<ImportedInterview> := [];
    responses := [];
    for i := 0 to |rows|
      invariant allContacts == Map(RowContact, rows[..i])
      invariant allInterviews == Map(RowInterview, rows[..i])
      invariant responses == AllResponses(rows[..i], ms, states)
    {
      var item := rows[i];
      var mapped := ColumnResponses(item, ms);
      responses := responses + (mapped + IdentityResponses(item, states));
      allContacts := allContacts + [RowContact(item)];
      allInterviews := allInterviews + [RowInterview(item)];
      PrefixStep(rows, i, ms, states);
    }
    assert rows[..|rows|] == rows;
    contacts := RemoveDuplicates(allContacts, ContactKey);
    interviews := RemoveDuplicates(allInterviews, InterviewKey);
  }

  /** One more row processed: each output grows by what that row yields. */
  lemma PrefixStep(rows: seq<RawItem>, i: nat, ms: seq<QuestionMapping>, states: seq<string>)
    requires i < |rows|
    ensures Map(RowContact, rows[..i + 1]) == Map(RowContact, rows[..i]) + [RowContact(rows[i])]
    ensures Map(RowInterview, rows[..i + 1]) == Map(RowInterview, rows[..i]) + [RowInterview(rows[i])]
    ensures AllResponses(rows[..i + 1], ms, states) == AllResponses(rows[..i], ms, states) + RowResponses(rows[i], ms, states)
  {
    assert rows[..i + 1] == rows[..i] + [rows[i]];
    assert rows[..i + 1][..i] == rows[..i];
    MapSnoc(RowContact, rows[..i], rows[i]);
    MapSnoc(RowInterview, rows[..i], rows[i]);
  }

  /** `questionMappings.forEach(...)` for one row: a response for each
      truthy column, in column order. */
  method ColumnResponses(item: RawItem, ms: seq<QuestionMapping>) returns (responses: seq<Response>)
    ensures responses == MappedResponses(item, ms)
  {
    responses := [];
    for j := 0 to |ms|
      invariant responses == MappedResponses(item, ms[..j])
    {
      var mapping := ms[j];
      var value := Column(item, mapping.key);
      FilterSnoc(Present(item), ms[..j], mapping);
      assert ms[..j + 1] == ms[..j] + [mapping];
      if Truthy(value) {
        MapSnoc(ResponseFor(item), Filter(Present(item), ms[..j]), mapping);
        responses := responses + [Response(mapping.id, ConvertAnswer(value, mapping.qtype), Some(item.startTime))];
      }
    }
    assert ms[..|ms|] == ms;
  }

  /** After `removeDuplicates` by id the ids are distinct and every id of
      the input is still present. */
  lemma DedupedIds(all: seq<ImportedContact>)
    ensures var cs := RemoveDuplicates(all, ContactKey);
      && (forall a, b :: 0 <= a < b < |cs| ==> cs[a].id != cs[b].id)
      && (forall i :: 0 <= i < |all| ==> exists a :: 0 <= a < |cs| && cs[a].id == all[i].id)
  {
    var cs := RemoveDuplicates(all, ContactKey);
    RemoveDuplicatesDistinct(all, ContactKey);
    RemoveDuplicatesKeys(all, ContactKey);
    forall a, b | 0 <= a < b < |cs|
      ensures cs[a].id != cs[b].id
    {
      assert ContactKey(cs[a]) != ContactKey(cs[b]);
    }
    forall i | 0 <= i < |all|
      ensures exists a :: 0 <= a < |cs| && cs[a].id == all[i].id
    {
      var a :| 0 <= a < |cs| && ContactKey(cs[a]) == ContactKey(all[i]);
      assert cs[a].id == all[i].id;
    }
  }

  /** Every row yields one contact and one interview before duplicates are
      removed; afterwards contact ids are distinct and every row's CUID is
      still among them. */
  lemma ImportedContactsSpec(rows: seq<RawItem>)
    ensures |Map(RowContact, rows)| == |rows| && |Map(RowInterview, rows)| == |rows|
    ensures var cs := RemoveDuplicates(Map(RowContact, rows), ContactKey);
      && (forall a, b :: 0 <= a < b < |cs| ==> cs[a].id != cs[b].id)
      && (forall i :: 0 <= i < |rows| ==> exists a :: 0 <= a < |cs| && cs[a].id == rows[i].cuid)
  {
    var all := Map(RowContact, rows);
    DedupedIds(all);
    forall i | 0 <= i < |rows|
      ensures all[i].id == rows[i].cuid
    {
      assert all[i] == RowContact(rows[i]);
    }
  }
}
