/**
 * The display step's in-place `list.sort(key=...)`. Python's sort is stable:
 * records whose keys compare equal keep their relative order. The model
 * sorts by insertion, and `StableSortIsUnique` shows that every sorted,
 * stable rearrangement of a list is that same list, so the model agrees with
 * whatever algorithm the library uses.
 */
module Sorting {
  import opened Lex
  import opened Timers

  /** The two sort keys: the name, or the elapsed days at a fixed `now`. */
  datatype SortKey = ByName | ByDays(now: int)

  /** The menu entries "None", "Alphabetically" and "Days Passed". */
  datatype SortOption = NoSort | Alphabetically | DaysPassed

  /** The key of `a` is at most the key of `b`. */
  predicate KeyLe(k: SortKey, a: Timer, b: Timer)
  {
    match k
    case ByName => LexLe(a.name, b.name)
    case ByDays(now) => ElapsedDays(a, now) <= ElapsedDays(b, now)
  }

  /** Neither key is smaller than the other: the sort must keep such records in order. */
  predicate SameKey(k: SortKey, a: Timer, b: Timer)
  {
    KeyLe(k, a, b) && KeyLe(k, b, a)
  }

  lemma KeyLeTotal(k: SortKey, a: Timer, b: Timer)
    ensures KeyLe(k, a, b) || KeyLe(k, b, a)
  {
    if k.ByName? {
      LexLeTotal(a.name, b.name);
    }
  }

  lemma KeyLeTransitive(k: SortKey, a: Timer, b: Timer, c: Timer)
    requires KeyLe(k, a, b) && KeyLe(k, b, c)
    ensures KeyLe(k, a, c)
  {
    if k.ByName? {
      LexLeTransitive(a.name, b.name, c.name);
    }
  }

  lemma KeyLeReflexive(k: SortKey, a: Timer)
    ensures KeyLe(k, a, a)
  {
    if k.ByName? {
      LexLeReflexive(a.name);
    }
  }

  /** Records tie under "Alphabetically" exactly when their names are equal. */
  lemma SameKeyByNameIffSameName(a: Timer, b: Timer)
    ensures SameKey(ByName, a, b) <==> a.name == b.name
  {
    if SameKey(ByName, a, b) {
      LexLeAntisymmetric(a.name, b.name);
    } else if a.name == b.name {
      LexLeReflexive(a.name);
    }
  }

  /** Non-decreasing by key across the whole list. */
  ghost predicate Sorted(k: SortKey, s: seq<Timer>)
  {
    forall i, j :: 0 <= i < j < |s| ==> KeyLe(k, s[i], s[j])
  }

  /** The records of `s` that tie with `t`, in their order in `s`. */
  function Ties(k: SortKey, s: seq<Timer>, t: Timer): (r: seq<Timer>)
  {
    if s == [] then []
    else (if SameKey(k, s[0], t) then [s[0]] else []) + Ties(k, s[1..], t)
  }

  /** `r` keeps every group of tied records of `s` in its original order. */
  ghost predicate Stable(k: SortKey, s: seq<Timer>, r: seq<Timer>)
  {
    forall t :: Ties(k, r, t) == Ties(k, s, t)
  }

  /** Inserts `x` before the first record whose key is not smaller than its own. */
  function Insert(k: SortKey, x: Timer, s: seq<Timer>): (r: seq<Timer>)
  {
    if s == [] then [x]
    else if KeyLe(k, x, s[0]) then [x] + s
    else [s[0]] + Insert(k, x, s[1..])
  }

  /** Stable insertion sort: the reference for `list.sort(key=...)`. */
  function SortBy(k: SortKey, s: seq<Timer>): (r: seq<Timer>)
  {
    if s == [] then [] else Insert(k, s[0], SortBy(k, s[1..]))
  }

  lemma {:induction false} InsertPermutes(k: SortKey, x: Timer, s: seq<Timer>)
    ensures multiset(Insert(k, x, s)) == multiset(s) + multiset{x}
  {
    if s != [] && !KeyLe(k, x, s[0]) {
      InsertPermutes(k, x, s[1..]);
      assert s == [s[0]] + s[1..];
    }
  }

  /** Sorting only rearranges: the result is a permutation of the list. */
  lemma {:induction false} SortByPermutes(k: SortKey, s: seq<Timer>)
    ensures multiset(SortBy(k, s)) == multiset(s)
  {
    if s != [] {
      SortByPermutes(k, s[1..]);
      InsertPermutes(k, s[0], SortBy(k, s[1..]));
      assert s == [s[0]] + s[1..];
    }
  }

  /** Every record of `s` has a key at least that of `x`. */
  ghost predicate AtMostAll(k: SortKey, x: Timer, s: seq<Timer>)
  {
    forall j :: 0 <= j < |s| ==> KeyLe(k, x, s[j])
  }

  lemma SortedCons(k: SortKey, x: Timer, s: seq<Timer>)
    requires Sorted(k, s) && AtMostAll(k, x, s)
    ensures Sorted(k, [x] + s)
  {
  }

  lemma {:induction false} InsertMembers(k: SortKey, x: Timer, s: seq<Timer>, y: Timer)
    requires y in Insert(k, x, s)
    ensures y == x || y in s
  {
    if s != [] && !KeyLe(k, x, s[0]) && y != s[0] {
      InsertMembers(k, x, s[1..], y);
    }
  }

  lemma {:induction false} InsertSorted(k: SortKey, x: Timer, s: seq<Timer>)
    requires Sorted(k, s)
    ensures Sorted(k, Insert(k, x, s))
  {
    if s == [] {
    } else if KeyLe(k, x, s[0]) {
      forall j | 0 <= j < |s| ensures KeyLe(k, x, s[j]) {
        if j > 0 {
          KeyLeTransitive(k, x, s[0], s[j]);
        }
      }
      SortedCons(k, x, s);
    } else {
      KeyLeTotal(k, x, s[0]);
      var tail := Insert(k, x, s[1..]);
      InsertSorted(k, x, s[1..]);
      forall j | 0 <= j < |tail| ensures KeyLe(k, s[0], tail[j]) {
        InsertMembers(k, x, s[1..], tail[j]);
        if tail[j] != x {
          var m :| 0 <= m < |s[1..]| && s[1..][m] == tail[j];
          assert s[m + 1] == tail[j];
        }
      }
      SortedCons(k, s[0], tail);
    }
  }

  /** The result is non-decreasing by key. */
  lemma {:induction false} SortBySorted(k: SortKey, s: seq<Timer>)
    ensures Sorted(k, SortBy(k, s))
  {
    if s != [] {
      SortBySorted(k, s[1..]);
      InsertSorted(k, s[0], SortBy(k, s[1..]));
    }
  }

  lemma TiesConcat(k: SortKey, a: seq<Timer>, b: seq<Timer>, t: Timer)
    ensures Ties(k, a + b, t) == Ties(k, a, t) + Ties(k, b, t)
    decreases |a|
  {
    if a != [] {
      assert (a + b)[0] == a[0];
      assert (a + b)[1..] == a[1..] + b;
      TiesConcat(k, a[1..], b, t);
      var h := if SameKey(k, a[0], t) then [a[0]] else [];
      calc {
        Ties(k, a + b, t);
        h + Ties(k, a[1..] + b, t);
        h + (Ties(k, a[1..], t) + Ties(k, b, t));
        (h + Ties(k, a[1..], t)) + Ties(k, b, t);
      }
    } else {
      assert a + b == b;
    }
  }

  lemma SameKeyTransitive(k: SortKey, a: Timer, b: Timer, c: Timer)
    requires SameKey(k, a, b) && SameKey(k, b, c)
    ensures SameKey(k, a, c)
  {
    KeyLeTransitive(k, a, b, c);
    KeyLeTransitive(k, c, b, a);
  }

  /** `x` lands in front of every record it ties with. */
  lemma {:induction false} InsertTies(k: SortKey, x: Timer, s: seq<Timer>, t: Timer)
    ensures Ties(k, Insert(k, x, s), t) == (if SameKey(k, x, t) then [x] else []) + Ties(k, s, t)
  {
    if s == [] {
    } else if KeyLe(k, x, s[0]) {
      TiesConcat(k, [x], s, t);
    } else {
      InsertTies(k, x, s[1..], t);
      TiesConcat(k, [s[0]], Insert(k, x, s[1..]), t);
      if SameKey(k, x, t) && SameKey(k, s[0], t) {
        SameKeyTransitive(k, x, t, s[0]);
        assert false;
      }
    }
  }

  /** Records with equal keys keep their relative order. */
  lemma {:induction false} SortByStable(k: SortKey, s: seq<Timer>)
    ensures Stable(k, s, SortBy(k, s))
  {
    if s != [] {
      SortByStable(k, s[1..]);
      forall t ensures Ties(k, SortBy(k, s), t) == Ties(k, s, t) {
        InsertTies(k, s[0], SortBy(k, s[1..]), t);
      }
    }
  }

  lemma {:induction false} TiesIn(k: SortKey, s: seq<Timer>, t: Timer, y: Timer)
    requires y in Ties(k, s, t)
    ensures y in s
  {
    if s[0] != y {
      TiesIn(k, s[1..], t, y);
    }
  }

  lemma TiesOfHead(k: SortKey, s: seq<Timer>)
    requires s != []
    ensures Ties(k, s, s[0]) != [] && Ties(k, s, s[0])[0] == s[0]
  {
    KeyLeReflexive(k, s[0]);
  }

  /**
   * Any rearrangement that is sorted and stable is the insertion sort's
   * result: a stable sort's output is fixed by its input.
   */
  lemma {:induction false} StableSortIsUnique(k: SortKey, s: seq<Timer>, r: seq<Timer>)
    requires Sorted(k, r) && Stable(k, s, r)
    ensures r == SortBy(k, s)
  {
    SortBySorted(k, s);
    SortByStable(k, s);
    SortedStableEqual(k, r, SortBy(k, s));
  }

  lemma {:induction false} SortedStableEqual(k: SortKey, a: seq<Timer>, b: seq<Timer>)
    requires Sorted(k, a) && Sorted(k, b)
    requires forall t :: Ties(k, a, t) == Ties(k, b, t)
    ensures a == b
    decreases |a|
  {
    if a == [] && b != [] {
      TiesOfHead(k, b);
    } else if a != [] && b == [] {
      TiesOfHead(k, a);
    } else if a != [] {
      TiesOfHead(k, a);
      TiesOfHead(k, b);
      // The heads belong to each other's list, and each list is sorted,
      // so both heads have the least key and tie.
      TiesIn(k, b, a[0], a[0]);
      TiesIn(k, a, b[0], b[0]);
      var i :| 0 <= i < |b| && b[i] == a[0];
      var j :| 0 <= j < |a| && a[j] == b[0];
      if i > 0 { assert KeyLe(k, b[0], b[i]); } else { KeyLeReflexive(k, b[0]); }
      if j > 0 { assert KeyLe(k, a[0], a[j]); } else { KeyLeReflexive(k, a[0]); }
      assert SameKey(k, b[0], a[0]);
      assert Ties(k, b, a[0])[0] == b[0];
      assert a[0] == b[0];
      forall t ensures Ties(k, a[1..], t) == Ties(k, b[1..], t) {
        var h := if SameKey(k, a[0], t) then [a[0]] else [];
        assert Ties(k, a, t) == h + Ties(k, a[1..], t);
        assert Ties(k, b, t) == h + Ties(k, b[1..], t);
        assert Ties(k, a[1..], t) == Ties(k, a, t)[|h|..];
        assert Ties(k, b[1..], t) == Ties(k, b, t)[|h|..];
      }
      SortedStableEqual(k, a[1..], b[1..]);
    }
  }

  /**
   * The list after the sort step: unchanged for "None", otherwise a sorted,
   * stable permutation.
   */
  function Arrange(s: seq<Timer>, option: SortOption, now: int): (r: seq<Timer>)
    ensures multiset(r) == multiset(s)
    ensures option == NoSort ==> r == s
    ensures option == Alphabetically ==> Sorted(ByName, r) && Stable(ByName, s, r)
    ensures option == DaysPassed ==> Sorted(ByDays(now), r) && Stable(ByDays(now), s, r)
  {
    match option
    case NoSort => s
    case Alphabetically =>
      SortByPermutes(ByName, s);
      SortBySorted(ByName, s);
      SortByStable(ByName, s);
      SortBy(ByName, s)
    case DaysPassed =>
      SortByPermutes(ByDays(now), s);
      SortBySorted(ByDays(now), s);
      SortByStable(ByDays(now), s);
      SortBy(ByDays(now), s)
  }
}
