/**
 * Ranking free agents on the waiver wire (`get_top_free_agents`): every player's
 * ranking field is first coerced to a number in place, then the ten best players
 * by that field are returned, best first, ties kept in list order.
 */
module Waiver {

  import opened Outcome
  import opened Values
  import opened OrderedMaps

  /** How many players the ranking returns at most. */
  const TOP_COUNT := 10

  /** A free agent's dictionary, which the ranking updates in place. */
  class FreeAgent {
    var fields: OrderedMap<Value>

    constructor (fields: OrderedMap<Value>)
      ensures this.fields == fields
    {
      this.fields := fields;
    }
  }

  /**
   * What `float(...)` can be applied to without raising `TypeError`: the field is
   * missing, a number or a string. A string that does not parse makes the source
   * report the player's `"name"`, which must then be present.
   */
  predicate Convertible(d: OrderedMap<Value>, key: string, parseFloat: string -> Option<real>)
  {
    key in d.values ==>
      match d.values[key]
      case Num(_) => true
      case Text(s) => parseFloat(s).Some? || "name" in d.values
      case _ => false
  }

  /**
   * `float(player.get(key, 0))`, with 0 when the conversion raises `ValueError`.
   * `None` and dictionaries never reach it (see `Convertible`).
   */
  function Coerced(d: OrderedMap<Value>, key: string, parseFloat: string -> Option<real>): (x: real)
    ensures key !in d.values ==> x == 0.0
    ensures key in d.values && d.values[key].Num? ==> x == d.values[key].n
    ensures key in d.values && d.values[key].Text? && parseFloat(d.values[key].s).Some? ==>
      x == parseFloat(d.values[key].s).value
    ensures key in d.values && d.values[key].Text? && parseFloat(d.values[key].s).None? ==> x == 0.0
  {
    if key !in d.values then 0.0
    else match d.values[key]
      case Num(x) => x
      case Text(s) => (match parseFloat(s) case Some(x) => x case None => 0.0)
      case _ => 0.0
  }

  /** The player's dictionary after `player[key] = ...` has stored the coerced number. */
  function CoerceField(d: OrderedMap<Value>, key: string, parseFloat: string -> Option<real>): (r: OrderedMap<Value>)
    requires WellFormed(d)
    ensures WellFormed(r) && Convertible(r, key, parseFloat)
    ensures key in r.values && r.values[key] == Num(Coerced(d, key, parseFloat))
  {
    Put(d, key, Num(Coerced(d, key, parseFloat)))
  }

  /**
   * After coercion the field holds a number: 0 when it was missing or did not parse, the
   * number itself when it was one. Every other field keeps its value, and a new field goes last.
   */
  lemma CoerceFieldEffect(d: OrderedMap<Value>, key: string, parseFloat: string -> Option<real>)
    requires WellFormed(d)
    ensures var r := CoerceField(d, key, parseFloat);
      && Convertible(r, key, parseFloat)
      && key in r.values && r.values[key].Num?
      && (key !in d.values ==> r.values[key] == Num(0.0))
      && (key in d.values && d.values[key].Num? ==> r.values[key] == d.values[key])
      && (key in d.values && d.values[key].Text? ==>
            r.values[key] == Num(match parseFloat(d.values[key].s) case Some(x) => x case None => 0.0))
      && (forall k | k != key :: (k in r.values <==> k in d.values) && (k in d.values ==> r.values[k] == d.values[k]))
      && r.keys == if key in d.values then d.keys else d.keys + [key]
  {
  }

  /** Coercing a field that was already coerced changes nothing, so a player listed twice is safe. */
  lemma CoerceFieldIdempotent(d: OrderedMap<Value>, key: string, parseFloat: string -> Option<real>)
    requires WellFormed(d)
    ensures CoerceField(CoerceField(d, key, parseFloat), key, parseFloat) == CoerceField(d, key, parseFloat)
  {
    var once := CoerceField(d, key, parseFloat);
    assert once.values[key := once.values[key]] == once.values;
  }

  /** The number sorted on is the same before and after the field is coerced. */
  lemma CoercedAfterCoercion(d: OrderedMap<Value>, key: string, parseFloat: string -> Option<real>)
    requires WellFormed(d)
    ensures Coerced(CoerceField(d, key, parseFloat), key, parseFloat) == Coerced(d, key, parseFloat)
  {
  }

  lemma KeysAfterCoercion(before: seq<OrderedMap<Value>>, after: seq<OrderedMap<Value>>, key: string, parseFloat: string -> Option<real>)
    requires |before| == |after|
    requires forall j | 0 <= j < |before| :: WellFormed(before[j]) && after[j] == CoerceField(before[j], key, parseFloat)
    ensures Keys(after, key, parseFloat) == Keys(before, key, parseFloat)
  {
    forall j | 0 <= j < |before|
      ensures Keys(after, key, parseFloat)[j] == Keys(before, key, parseFloat)[j]
    {
      CoercedAfterCoercion(before[j], key, parseFloat);
    }
  }

  /** The sort keys of a list of dictionaries, coerced. */
  function Keys(ds: seq<OrderedMap<Value>>, key: string, parseFloat: string -> Option<real>): (ks: seq<real>)
    ensures |ks| == |ds|
  {
    seq(|ds|, i requires 0 <= i < |ds| => Coerced(ds[i], key, parseFloat))
  }

  /** With `reverse=True` and a stable sort, player `x` comes before player `y`. */
  predicate Precedes(ks: seq<real>, x: nat, y: nat)
    requires x < |ks| && y < |ks|
  {
    ks[x] > ks[y] || (ks[x] == ks[y] && x < y)
  }

  predicate InRange(ks: seq<real>, s: seq<nat>)
  {
    forall a | 0 <= a < |s| :: s[a] < |ks|
  }

  /** Positions listed in the order `sorted(..., reverse=True)` puts them. */
  predicate SortedBy(ks: seq<real>, s: seq<nat>)
  {
    && InRange(ks, s)
    && forall a, b | 0 <= a < b < |s| :: Precedes(ks, s[a], s[b])
  }

  /** Dropping the first position keeps a list ordered. */
  lemma SortedTail(ks: seq<real>, s: seq<nat>)
    requires SortedBy(ks, s) && s != []
    ensures SortedBy(ks, s[1..])
  {
    var rest := s[1..];
    forall a, b | 0 <= a < b < |rest|
      ensures Precedes(ks, rest[a], rest[b])
    {
      assert rest[a] == s[a + 1] && rest[b] == s[b + 1];
    }
  }

  /** Inserts position `j`, later in the list than every position in `s`, behind its equals. */
  function Insert(ks: seq<real>, s: seq<nat>, j: nat): seq<nat>
    requires InRange(ks, s) && j < |ks|
  {
    if s == [] then [j]
    else if ks[s[0]] < ks[j] then [j] + s
    else [s[0]] + Insert(ks, s[1..], j)
  }

  /** A position that precedes every listed one can be put in front. */
  lemma ConsSorted(ks: seq<real>, x: nat, s: seq<nat>)
    requires SortedBy(ks, s) && x < |ks|
    requires forall a | 0 <= a < |s| :: Precedes(ks, x, s[a])
    ensures SortedBy(ks, [x] + s)
  {
    var r := [x] + s;
    forall a, b | 0 <= a < b < |r|
      ensures Precedes(ks, r[a], r[b])
    {
      if a > 0 {
        assert r[a] == s[a - 1] && r[b] == s[b - 1];
      }
    }
  }

  /** Insertion adds exactly position `j`. */
  lemma {:induction false} InsertMembers(ks: seq<real>, s: seq<nat>, j: nat)
    requires InRange(ks, s) && j < |ks|
    ensures |Insert(ks, s, j)| == |s| + 1
    ensures forall e :: e in Insert(ks, s, j) <==> e in s || e == j
  {
    if s != [] && ks[s[0]] >= ks[j] {
      InsertMembers(ks, s[1..], j);
      assert s == [s[0]] + s[1..];
    }
  }

  lemma {:induction false} InsertSorted(ks: seq<real>, s: seq<nat>, j: nat)
    requires SortedBy(ks, s) && j < |ks|
    requires forall a | 0 <= a < |s| :: s[a] < j
    ensures SortedBy(ks, Insert(ks, s, j))
    ensures |Insert(ks, s, j)| == |s| + 1
    ensures forall e :: e in Insert(ks, s, j) <==> e in s || e == j
  {
    InsertMembers(ks, s, j);
    if s == [] {
    } else if ks[s[0]] < ks[j] {
      forall a | 0 <= a < |s|
        ensures Precedes(ks, j, s[a])
      {
        if a > 0 {
          assert Precedes(ks, s[0], s[a]);
        }
      }
      ConsSorted(ks, j, s);
    } else {
      var rest := s[1..];
      SortedTail(ks, s);
      InsertSorted(ks, rest, j);
      var tail := Insert(ks, rest, j);
      forall a | 0 <= a < |tail|
        ensures Precedes(ks, s[0], tail[a])
      {
        assert tail[a] in tail;
        if tail[a] != j {
          var c :| 0 <= c < |rest| && rest[c] == tail[a];
          assert Precedes(ks, s[0], s[c + 1]);
        }
      }
      ConsSorted(ks, s[0], tail);
    }
  }

  /** The first `n` positions in stable descending order, built by insertion. */
  function SortPositions(ks: seq<real>, n: nat): (s: seq<nat>)
    requires n <= |ks|
    ensures SortedBy(ks, s) && |s| == n
    ensures forall e: nat :: e in s <==> e < n
  {
    if n == 0 then []
    else
      var prev := SortPositions(ks, n - 1);
      assert forall a | 0 <= a < |prev| :: prev[a] in prev;
      InsertSorted(ks, prev, n - 1);
      Insert(ks, prev, n - 1)
  }

  /** `sorted(range(len(ks)), key=lambda i: ks[i], reverse=True)`. */
  function Ranking(ks: seq<real>): (s: seq<nat>)
    ensures SortedBy(ks, s) && |s| == |ks|
    ensures forall e: nat :: e in s <==> e < |ks|
  {
    SortPositions(ks, |ks|)
  }

  function Min(a: int, b: int): int
  {
    if a <= b then a else b
  }

  /** The positions of the returned players: the first ten of the ranking. */
  function TopPositions(ks: seq<real>): seq<nat>
  {
    Ranking(ks)[..Min(TOP_COUNT, |ks|)]
  }

  /** A list ordered strictly lists each position once. */
  lemma SortedDistinct(ks: seq<real>, s: seq<nat>)
    requires SortedBy(ks, s)
    ensures forall a, b | 0 <= a < b < |s| :: s[a] != s[b]
  {
    forall a, b | 0 <= a < b < |s|
      ensures s[a] != s[b]
    {
      assert Precedes(ks, s[a], s[b]);
    }
  }

  /**
   * The ranking is the only arrangement of all positions that respects `Precedes`:
   * it is exactly what a stable descending sort produces.
   */
  lemma {:induction false} SortedUnique(ks: seq<real>, s: seq<nat>, t: seq<nat>)
    requires SortedBy(ks, s) && SortedBy(ks, t) && |s| == |t|
    requires forall e :: e in s <==> e in t
    ensures s == t
    decreases |s|
  {
    if s != [] {
      assert s[0] in s && t[0] in t;
      if s[0] != t[0] {
        assert false;
      }
      var s', t' := s[1..], t[1..];
      SameTailMembers(ks, s, t);
      SortedTail(ks, s);
      SortedTail(ks, t);
      SortedUnique(ks, s', t');
      assert s == [s[0]] + s' && t == [t[0]] + t';
    }
  }

  /** Two ordered lists with the same members and the same head have the same members after it. */
  lemma SameTailMembers(ks: seq<real>, s: seq<nat>, t: seq<nat>)
    requires SortedBy(ks, s) && SortedBy(ks, t) && s != [] && t != [] && s[0] == t[0]
    requires forall e :: e in s <==> e in t
    ensures forall e :: e in s[1..] <==> e in t[1..]
  {
    SortedDistinct(ks, s);
    SortedDistinct(ks, t);
    var s', t' := s[1..], t[1..];
    forall e
      ensures e in s' <==> e in t'
    {
      if e in s' {
        var c :| 0 <= c < |s'| && s'[c] == e;
        assert s[c + 1] == e && e in s;
        var d :| 0 <= d < |t| && t[d] == e;
        assert d != 0 && t'[d - 1] == e;
      }
      if e in t' {
        var c :| 0 <= c < |t'| && t'[c] == e;
        assert t[c + 1] == e && e in t;
        var d :| 0 <= d < |s| && s[d] == e;
        assert d != 0 && s'[d - 1] == e;
      }
    }
  }

  /** Any arrangement of all positions ordered by `Precedes` is the ranking. */
  lemma RankingUnique(ks: seq<real>, s: seq<nat>)
    requires SortedBy(ks, s) && |s| == |ks|
    requires forall e: nat :: e in s <==> e < |ks|
    ensures s == Ranking(ks)
  {
    SortedUnique(ks, s, Ranking(ks));
  }

  /** `[:10]` returns ten players, or all of them when there are fewer. */
  lemma TopLength(ks: seq<real>)
    ensures |TopPositions(ks)| == if |ks| < TOP_COUNT then |ks| else TOP_COUNT
  {
  }

  /** The returned players are players of the input, each at most once, best first, ties in list order. */
  lemma TopOrdered(ks: seq<real>)
    ensures InRange(ks, TopPositions(ks))
    ensures forall a, b | 0 <= a < b < |TopPositions(ks)| :: TopPositions(ks)[a] != TopPositions(ks)[b]
    ensures forall a, b | 0 <= a < b < |TopPositions(ks)| ::
      ks[TopPositions(ks)[a]] >= ks[TopPositions(ks)[b]]
    ensures forall a, b | 0 <= a < b < |TopPositions(ks)| && ks[TopPositions(ks)[a]] == ks[TopPositions(ks)[b]] ::
      TopPositions(ks)[a] < TopPositions(ks)[b]
  {
    var r := Ranking(ks);
    var t := TopPositions(ks);
    forall a, b | 0 <= a < b < |t|
      ensures Precedes(ks, t[a], t[b])
    {
      assert t[a] == r[a] && t[b] == r[b];
    }
    SortedDistinct(ks, t);
  }

  /** A player left out scores no better than any returned one, and loses ties to earlier ones. */
  lemma TopBeatsOmitted(ks: seq<real>, j: nat)
    requires j < |ks| && j !in TopPositions(ks)
    ensures forall a | 0 <= a < |TopPositions(ks)| ::
      ks[TopPositions(ks)[a]] > ks[j] || (ks[TopPositions(ks)[a]] == ks[j] && TopPositions(ks)[a] < j)
  {
    var r := Ranking(ks);
    var t := TopPositions(ks);
    assert j in r;
    var c :| 0 <= c < |r| && r[c] == j;
    assert c >= |t|;
    forall a | 0 <= a < |t|
      ensures Precedes(ks, t[a], j)
    {
      assert t[a] == r[a];
    }
  }

  /** With ten players or fewer, every player is returned. */
  lemma TopKeepsAllWhenFew(ks: seq<real>)
    requires |ks| <= TOP_COUNT
    ensures forall j | 0 <= j < |ks| :: j in TopPositions(ks)
  {
    assert TopPositions(ks) == Ranking(ks);
  }

  /** Keys 1, 3, 3, 2: the two 3s come first in list order, then 2, then 1. */
  lemma RankingExample()
    ensures TopPositions([1.0, 3.0, 3.0, 2.0]) == [1, 2, 3, 0]
  {
    var ks := [1.0, 3.0, 3.0, 2.0];
    assert SortPositions(ks, 1) == [0];
    assert SortPositions(ks, 2) == [1, 0];
    assert SortPositions(ks, 3) == [1, 2, 0];
    assert SortPositions(ks, 4) == [1, 2, 3, 0];
  }

  /** The dictionaries of the players, as they are now. */
  function Fields(players: seq<FreeAgent>): (ds: seq<OrderedMap<Value>>)
    reads set p | p in players
    ensures |ds| == |players|
    ensures forall i | 0 <= i < |players| :: ds[i] == players[i].fields
  {
    seq(|players|, i requires 0 <= i < |players| reads players => players[i].fields)
  }

  /** The players at the given positions. */
  function Pick(players: seq<FreeAgent>, positions: seq<nat>): (r: seq<FreeAgent>)
    requires forall a | 0 <= a < |positions| :: positions[a] < |players|
    ensures |r| == |positions|
    ensures forall a | 0 <= a < |positions| :: r[a] == players[positions[a]]
  {
    seq(|positions|, a requires 0 <= a < |positions| => players[positions[a]])
  }

  /** The loop of `get_top_free_agents`: every listed player's field is coerced in place, once per listing. */
  method CoerceAll(players: seq<FreeAgent>, key: string, parseFloat: string -> Option<real>)
    requires forall p | p in players :: WellFormed(p.fields) && Convertible(p.fields, key, parseFloat)
    modifies set p | p in players
    ensures forall p | p in players :: p.fields == CoerceField(old(p.fields), key, parseFloat)
  {
    ghost var done: set<FreeAgent> := {};
    var i := 0;
    while i < |players|
      invariant 0 <= i <= |players|
      invariant forall j | 0 <= j < i :: players[j] in done
      invariant forall p | p in players ::
        p.fields == if p in done then CoerceField(old(p.fields), key, parseFloat) else old(p.fields)
    {
      var player := players[i];
      if player in done {
        CoerceFieldIdempotent(old(player.fields), key, parseFloat);
      }
      player.fields := CoerceField(player.fields, key, parseFloat);
      done := done + {player};
      i := i + 1;
    }
  }

  /**
   * `get_top_free_agents(players, key)`: every listed player's `key` field now holds
   * its coerced number (the list itself is not reordered), and the result is the ten
   * best players in stable descending order of that number.
   */
  method GetTopFreeAgents(players: seq<FreeAgent>, key: string, parseFloat: string -> Option<real>)
    returns (top: seq<FreeAgent>)
    requires forall p | p in players :: WellFormed(p.fields) && Convertible(p.fields, key, parseFloat)
    modifies set p | p in players
    ensures forall p | p in players :: p.fields == CoerceField(old(p.fields), key, parseFloat)
    ensures var ks := Keys(old(Fields(players)), key, parseFloat);
            InRange(ks, TopPositions(ks)) && top == Pick(players, TopPositions(ks))
  {
    ghost var before := Fields(players);
    CoerceAll(players, key, parseFloat);
    var ks := Keys(Fields(players), key, parseFloat);
    KeysAfterCoercion(before, Fields(players), key, parseFloat);
    TopOrdered(ks);
    top := Pick(players, TopPositions(ks));
  }
}
