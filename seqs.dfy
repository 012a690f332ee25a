/**
 * Generic sequence operations used by the repositories: selecting rows by a key
 * (the ORM's `filter` and `deleteWhere`) and Kotlin's stable `sortedBy`.
 * Keys are passed as named functions, never as lambdas, so that the same
 * selection written in two contracts denotes the same term.
 */
module Seqs {

  import opened Wrappers

  /** The elements of `s` whose key equals `k`, in order. */
  function Select<T>(s: seq<T>, key: T -> int, k: int): (r: seq<T>)
    ensures |r| <= |s|
  {
    if s == [] then []
    else (if key(s[0]) == k then [s[0]] else []) + Select(s[1..], key, k)
  }

  /** The elements of `s` whose key differs from `k`, in order. */
  function Reject<T>(s: seq<T>, key: T -> int, k: int): (r: seq<T>)
    ensures |r| <= |s|
  {
    if s == [] then []
    else (if key(s[0]) != k then [s[0]] else []) + Reject(s[1..], key, k)
  }

  /** The elements of `s` whose key is not in `ks`, in order. */
  function RejectIn<T>(s: seq<T>, key: T -> int, ks: set<int>): (r: seq<T>)
    ensures |r| <= |s|
  {
    if s == [] then []
    else (if key(s[0]) !in ks then [s[0]] else []) + RejectIn(s[1..], key, ks)
  }

  /** The set of ids of the elements of `s` whose owner key is `k`. */
  function IdsWith<T>(s: seq<T>, owner: T -> int, k: int, id: T -> int): (r: set<int>)
    ensures forall j :: 0 <= j < |s| && owner(s[j]) == k ==> id(s[j]) in r
    ensures forall i :: i in r ==> exists j :: 0 <= j < |s| && owner(s[j]) == k && id(s[j]) == i
  {
    set j | 0 <= j < |s| && owner(s[j]) == k :: id(s[j])
  }

  /** The counter starts at 1, every key in `s` lies in [1, next) and keys strictly increase: auto-increment ids. */
  predicate IdsFresh<T>(s: seq<T>, key: T -> int, next: int)
  {
    && 1 <= next
    && (forall i :: 0 <= i < |s| ==> 1 <= key(s[i]) < next)
    && Increasing(s, key)
  }

  /** Keys strictly increase along `s`. */
  predicate Increasing<T>(s: seq<T>, key: T -> int)
  {
    forall i, j :: 0 <= i < j < |s| ==> key(s[i]) < key(s[j])
  }

  /** No two elements of `s` share a name: a unique index. */
  predicate NamesDistinct<T>(s: seq<T>, name: T -> string)
  {
    forall i, j :: 0 <= i < j < |s| ==> name(s[i]) != name(s[j])
  }

  /** Keys are ascending (not necessarily strictly). */
  predicate SortedBy<T>(s: seq<T>, key: T -> int)
  {
    forall i, j :: 0 <= i < j < |s| ==> key(s[i]) <= key(s[j])
  }

  /** Places `x` before the first element whose key is not smaller than its own. */
  function InsertBy<T>(x: T, s: seq<T>, key: T -> int): (r: seq<T>)
    ensures |r| == |s| + 1
  {
    if s == [] then [x]
    else if key(x) <= key(s[0]) then [x] + s
    else [s[0]] + InsertBy(x, s[1..], key)
  }

  lemma {:induction false} InsertByPermutes<T>(x: T, s: seq<T>, key: T -> int)
    ensures multiset(InsertBy(x, s, key)) == multiset(s) + multiset{x}
  {
    if s != [] && key(s[0]) < key(x) {
      InsertByPermutes(x, s[1..], key);
      assert s == [s[0]] + s[1..];
    }
  }

  lemma {:induction false} InsertBySorted<T>(x: T, s: seq<T>, key: T -> int)
    requires SortedBy(s, key)
    ensures SortedBy(InsertBy(x, s, key), key)
  {
    if s != [] && key(s[0]) < key(x) {
      var rest := InsertBy(x, s[1..], key);
      InsertBySorted(x, s[1..], key);
      InsertByPermutes(x, s[1..], key);
      forall y | y in rest ensures key(s[0]) <= key(y) {
        assert y in multiset(rest);
        assert y in multiset(s[1..]) + multiset{x};
        if y in multiset(s[1..]) {
          var j :| 0 <= j < |s[1..]| && s[1..][j] == y;
          assert s[j + 1] == y;
        }
      }
      assert InsertBy(x, s, key) == [s[0]] + rest;
    }
  }

  /** Kotlin's `sortedBy`: a stable insertion sort on an integer key. */
  function SortBy<T>(s: seq<T>, key: T -> int): (r: seq<T>)
    ensures |r| == |s|
  {
    if s == [] then []
    else InsertBy(s[0], SortBy(s[1..], key), key)
  }

  /** `SortBy` returns its input in ascending key order. */
  lemma {:induction false} SortByOrdered<T>(s: seq<T>, key: T -> int)
    ensures SortedBy(SortBy(s, key), key)
  {
    if s != [] {
      SortByOrdered(s[1..], key);
      InsertBySorted(s[0], SortBy(s[1..], key), key);
    }
  }

  /** What `Select` keeps: exactly the elements with key `k`. */
  lemma {:induction false} SelectMembers<T>(s: seq<T>, key: T -> int, k: int)
    ensures forall i :: 0 <= i < |Select(s, key, k)| ==>
      Select(s, key, k)[i] in s && key(Select(s, key, k)[i]) == k
    ensures forall i :: 0 <= i < |s| && key(s[i]) == k ==> s[i] in Select(s, key, k)
  {
    if s != [] {
      SelectMembers(s[1..], key, k);
      assert s == [s[0]] + s[1..];
    }
  }

  /** What `Reject` keeps: exactly the elements whose key is not `k`. */
  lemma {:induction false} RejectMembers<T>(s: seq<T>, key: T -> int, k: int)
    ensures forall i :: 0 <= i < |Reject(s, key, k)| ==>
      Reject(s, key, k)[i] in s && key(Reject(s, key, k)[i]) != k
    ensures forall i :: 0 <= i < |s| && key(s[i]) != k ==> s[i] in Reject(s, key, k)
  {
    if s != [] {
      RejectMembers(s[1..], key, k);
      assert s == [s[0]] + s[1..];
    }
  }

  /** What `RejectIn` keeps: exactly the elements whose key is outside `ks`. */
  lemma {:induction false} RejectInMembers<T>(s: seq<T>, key: T -> int, ks: set<int>)
    ensures forall i :: 0 <= i < |RejectIn(s, key, ks)| ==>
      RejectIn(s, key, ks)[i] in s && key(RejectIn(s, key, ks)[i]) !in ks
    ensures forall i :: 0 <= i < |s| && key(s[i]) !in ks ==> s[i] in RejectIn(s, key, ks)
  {
    if s != [] {
      RejectInMembers(s[1..], key, ks);
      assert s == [s[0]] + s[1..];
    }
  }

  /** `SortBy` returns a permutation of its input. */
  lemma {:induction false} SortByPermutes<T>(s: seq<T>, key: T -> int)
    ensures multiset(SortBy(s, key)) == multiset(s)
  {
    if s != [] {
      SortByPermutes(s[1..], key);
      InsertByPermutes(s[0], SortBy(s[1..], key), key);
      assert s == [s[0]] + s[1..];
    }
  }

  lemma {:induction false} SelectConcat<T>(s: seq<T>, t: seq<T>, key: T -> int, k: int)
    ensures Select(s + t, key, k) == Select(s, key, k) + Select(t, key, k)
  {
    if s == [] {
      assert s + t == t;
    } else {
      var h := if key(s[0]) == k then [s[0]] else [];
      assert (s + t)[0] == s[0];
      assert (s + t)[1..] == s[1..] + t;
      SelectConcat(s[1..], t, key, k);
      calc {
        Select(s + t, key, k);
        h + Select(s[1..] + t, key, k);
        h + (Select(s[1..], key, k) + Select(t, key, k));
        (h + Select(s[1..], key, k)) + Select(t, key, k);
      }
    }
  }

  lemma {:induction false} RejectConcat<T>(s: seq<T>, t: seq<T>, key: T -> int, k: int)
    ensures Reject(s + t, key, k) == Reject(s, key, k) + Reject(t, key, k)
  {
    if s == [] {
      assert s + t == t;
    } else {
      var h := if key(s[0]) != k then [s[0]] else [];
      assert (s + t)[0] == s[0];
      assert (s + t)[1..] == s[1..] + t;
      RejectConcat(s[1..], t, key, k);
      calc {
        Reject(s + t, key, k);
        h + Reject(s[1..] + t, key, k);
        h + (Reject(s[1..], key, k) + Reject(t, key, k));
        (h + Reject(s[1..], key, k)) + Reject(t, key, k);
      }
    }
  }

  lemma {:induction false} RejectInConcat<T>(s: seq<T>, t: seq<T>, key: T -> int, ks: set<int>)
    ensures RejectIn(s + t, key, ks) == RejectIn(s, key, ks) + RejectIn(t, key, ks)
  {
    if s == [] {
      assert s + t == t;
    } else {
      var h := if key(s[0]) !in ks then [s[0]] else [];
      assert (s + t)[0] == s[0];
      assert (s + t)[1..] == s[1..] + t;
      RejectInConcat(s[1..], t, key, ks);
      calc {
        RejectIn(s + t, key, ks);
        h + RejectIn(s[1..] + t, key, ks);
        h + (RejectIn(s[1..], key, ks) + RejectIn(t, key, ks));
        (h + RejectIn(s[1..], key, ks)) + RejectIn(t, key, ks);
      }
    }
  }

  /** Selecting when every element matches keeps the whole sequence. */
  lemma {:induction false} SelectAll<T>(s: seq<T>, key: T -> int, k: int)
    requires forall i :: 0 <= i < |s| ==> key(s[i]) == k
    ensures Select(s, key, k) == s
  {
    if s != [] {
      SelectAll(s[1..], key, k);
    }
  }

  /** Rejecting when no element matches keeps the whole sequence. */
  lemma {:induction false} RejectNone<T>(s: seq<T>, key: T -> int, k: int)
    requires forall i :: 0 <= i < |s| ==> key(s[i]) != k
    ensures Reject(s, key, k) == s
  {
    if s != [] {
      RejectNone(s[1..], key, k);
    }
  }

  /** Rejecting ids outside `ks` keeps the whole sequence. */
  lemma {:induction false} RejectInNone<T>(s: seq<T>, key: T -> int, ks: set<int>)
    requires forall i :: 0 <= i < |s| ==> key(s[i]) !in ks
    ensures RejectIn(s, key, ks) == s
  {
    if s != [] {
      RejectInNone(s[1..], key, ks);
    }
  }

  /** `r` is the subsequence of `s` at the strictly increasing positions `f`. */
  ghost predicate Embeds<T>(r: seq<T>, s: seq<T>, f: seq<int>)
  {
    && |f| == |r|
    && (forall a :: 0 <= a < |f| ==> 0 <= f[a] < |s| && r[a] == s[f[a]])
    && (forall a, b :: 0 <= a < b < |f| ==> f[a] < f[b])
  }

  /** Positions shifted past a new head element. */
  function Shift(f: seq<int>): (g: seq<int>)
    ensures |g| == |f| && forall a :: 0 <= a < |f| ==> g[a] == f[a] + 1
  {
    seq(|f|, a requires 0 <= a < |f| => f[a] + 1)
  }

  lemma EmbedsTail<T>(s: seq<T>, r': seq<T>, f': seq<int>, keep: bool) returns (f: seq<int>)
    requires s != [] && Embeds(r', s[1..], f')
    ensures Embeds((if keep then [s[0]] else []) + r', s, f)
  {
    var g := Shift(f');
    f := if keep then [0] + g else g;
    var r := (if keep then [s[0]] else []) + r';
    forall a | 0 <= a < |f| ensures 0 <= f[a] < |s| && r[a] == s[f[a]] {
      if keep && a == 0 {
      } else {
        var a' := if keep then a - 1 else a;
        assert f[a] == g[a'] == f'[a'] + 1;
        assert r[a] == r'[a'] == s[1..][f'[a']];
      }
    }
  }

  lemma {:induction false} SelectEmbeds<T>(s: seq<T>, key: T -> int, k: int) returns (f: seq<int>)
    ensures Embeds(Select(s, key, k), s, f)
  {
    if s == [] {
      f := [];
    } else {
      var f' := SelectEmbeds(s[1..], key, k);
      f := EmbedsTail(s, Select(s[1..], key, k), f', key(s[0]) == k);
    }
  }

  lemma {:induction false} RejectEmbeds<T>(s: seq<T>, key: T -> int, k: int) returns (f: seq<int>)
    ensures Embeds(Reject(s, key, k), s, f)
  {
    if s == [] {
      f := [];
    } else {
      var f' := RejectEmbeds(s[1..], key, k);
      f := EmbedsTail(s, Reject(s[1..], key, k), f', key(s[0]) != k);
    }
  }

  lemma {:induction false} RejectInEmbeds<T>(s: seq<T>, key: T -> int, ks: set<int>) returns (f: seq<int>)
    ensures Embeds(RejectIn(s, key, ks), s, f)
  {
    if s == [] {
      f := [];
    } else {
      var f' := RejectInEmbeds(s[1..], key, ks);
      f := EmbedsTail(s, RejectIn(s[1..], key, ks), f', key(s[0]) !in ks);
    }
  }

  /** A subsequence keeps auto-increment ids fresh. */
  lemma EmbedsIdsFresh<T>(r: seq<T>, s: seq<T>, f: seq<int>, key: T -> int, next: int)
    requires Embeds(r, s, f) && IdsFresh(s, key, next)
    ensures IdsFresh(r, key, next)
  {
    forall a, b | 0 <= a < b < |r| ensures key(r[a]) < key(r[b]) {
      assert f[a] < f[b];
    }
  }

  /** A subsequence keeps names distinct. */
  lemma EmbedsNamesDistinct<T>(r: seq<T>, s: seq<T>, f: seq<int>, name: T -> string)
    requires Embeds(r, s, f) && NamesDistinct(s, name)
    ensures NamesDistinct(r, name)
  {
    forall a, b | 0 <= a < b < |r| ensures name(r[a]) != name(r[b]) {
      assert f[a] < f[b];
    }
  }

  /** Appending a row that takes the counter's value keeps ids fresh. */
  lemma AppendIdsFresh<T>(s: seq<T>, x: T, key: T -> int, next: int)
    requires IdsFresh(s, key, next) && key(x) == next
    ensures IdsFresh(s + [x], key, next + 1)
  {
  }

  /** Appending a row whose name is new keeps names distinct. */
  lemma AppendNamesDistinct<T>(s: seq<T>, x: T, name: T -> string)
    requires NamesDistinct(s, name)
    requires forall i :: 0 <= i < |s| ==> name(s[i]) != name(x)
    ensures NamesDistinct(s + [x], name)
  {
  }

  /** Selecting from `[a] + t` looks at `a` first, then at `t`. */
  lemma SelectCons<T>(a: T, t: seq<T>, key: T -> int, k: int)
    ensures Select([a] + t, key, k) == (if key(a) == k then [a] else []) + Select(t, key, k)
  {
    assert ([a] + t)[1..] == t;
  }

  /** Inserting `x` leaves the elements of every key in their order, `x` first among its own. */
  lemma {:induction false} InsertByStable<T>(x: T, s: seq<T>, key: T -> int, k: int)
    ensures Select(InsertBy(x, s, key), key, k)
         == (if key(x) == k then [x] else []) + Select(s, key, k)
  {
    if s == [] {
      SelectCons(x, s, key, k);
      assert [x] + s == [x];
    } else if key(x) <= key(s[0]) {
      SelectCons(x, s, key, k);
    } else {
      InsertByStable(x, s[1..], key, k);
      InsertBySkip(x, s, key, k);
    }
  }

  lemma InsertBySkip<T>(x: T, s: seq<T>, key: T -> int, k: int)
    requires s != [] && key(s[0]) < key(x)
    requires Select(InsertBy(x, s[1..], key), key, k)
          == (if key(x) == k then [x] else []) + Select(s[1..], key, k)
    ensures Select(InsertBy(x, s, key), key, k)
         == (if key(x) == k then [x] else []) + Select(s, key, k)
  {
    var rest := InsertBy(x, s[1..], key);
    var hx := if key(x) == k then [x] else [];
    var h0 := if key(s[0]) == k then [s[0]] else [];
    var tail := Select(s[1..], key, k);
    SelectCons(s[0], rest, key, k);
    assert Select(s, key, k) == h0 + tail;
    SwapEmpty(h0, hx, tail);
  }

  lemma SwapEmpty<T>(a: seq<T>, b: seq<T>, t: seq<T>)
    requires a == [] || b == []
    ensures a + (b + t) == b + (a + t)
  {
    if a == [] {
      assert a + (b + t) == b + t;
      assert a + t == t;
    } else {
      assert b + t == t;
      assert b + (a + t) == a + t;
    }
  }

  /** `SortBy` is stable: the elements sharing one key keep their input order. */
  lemma {:induction false} SortByStable<T>(s: seq<T>, key: T -> int, k: int)
    ensures Select(SortBy(s, key), key, k) == Select(s, key, k)
  {
    if s != [] {
      SortByStable(s[1..], key, k);
      InsertByStable(s[0], SortBy(s[1..], key), key, k);
      assert s == [s[0]] + s[1..];
      SelectConcat([s[0]], s[1..], key, k);
    }
  }

  /** Sorting an already sorted sequence changes nothing. */
  lemma {:induction false} SortBySorted<T>(s: seq<T>, key: T -> int)
    requires SortedBy(s, key)
    ensures SortBy(s, key) == s
  {
    if s != [] {
      SortBySorted(s[1..], key);
      assert SortBy(s[1..], key) == s[1..];
      assert s[1..] == [] || key(s[0]) <= key(s[1..][0]);
    }
  }

  /** Selecting a key no element carries gives nothing. */
  lemma {:induction false} SelectNone<T>(s: seq<T>, key: T -> int, k: int)
    requires forall i :: 0 <= i < |s| ==> key(s[i]) != k
    ensures Select(s, key, k) == []
  {
    if s != [] {
      SelectNone(s[1..], key, k);
    }
  }

  /** After removing key `j`, selecting `k` finds nothing when `k == j` and all of `k` otherwise. */
  lemma {:induction false} SelectReject<T>(s: seq<T>, key: T -> int, j: int, k: int)
    ensures Select(Reject(s, key, j), key, k) == if j == k then [] else Select(s, key, k)
  {
    if s != [] {
      SelectReject(s[1..], key, j, k);
      var h := if key(s[0]) != j then [s[0]] else [];
      SelectConcat(h, Reject(s[1..], key, j), key, k);
      assert Select(h, key, k) == if key(s[0]) != j && key(s[0]) == k then [s[0]] else [];
    }
  }

  /** After removing the keys `ks`, selecting `k` finds nothing when `k` is in `ks` and all of `k` otherwise. */
  lemma {:induction false} SelectRejectIn<T>(s: seq<T>, key: T -> int, ks: set<int>, k: int)
    ensures Select(RejectIn(s, key, ks), key, k) == if k in ks then [] else Select(s, key, k)
  {
    if s != [] {
      SelectRejectIn(s[1..], key, ks, k);
      var h := if key(s[0]) !in ks then [s[0]] else [];
      SelectConcat(h, RejectIn(s[1..], key, ks), key, k);
      assert Select(h, key, k) == if key(s[0]) !in ks && key(s[0]) == k then [s[0]] else [];
    }
  }

  /** Sorting a selection keeps exactly the selected elements. */
  lemma SortedSelectMembers<T>(s: seq<T>, key: T -> int, k: int, order: T -> int)
    ensures forall i :: 0 <= i < |SortBy(Select(s, key, k), order)| ==>
      SortBy(Select(s, key, k), order)[i] in s && key(SortBy(Select(s, key, k), order)[i]) == k
    ensures forall i :: 0 <= i < |s| && key(s[i]) == k ==> s[i] in SortBy(Select(s, key, k), order)
  {
    var owned := Select(s, key, k);
    var sorted := SortBy(owned, order);
    SortByPermutes(owned, order);
    SelectMembers(s, key, k);
    forall i | 0 <= i < |sorted| ensures sorted[i] in s && key(sorted[i]) == k {
      assert sorted[i] in multiset(owned);
    }
    forall i | 0 <= i < |s| && key(s[i]) == k ensures s[i] in sorted {
      assert s[i] in multiset(sorted);
    }
  }

  /** Selecting from `s + t` when only `t` holds the key gives all of `t`. */
  lemma SelectOnlyRight<T>(s: seq<T>, t: seq<T>, key: T -> int, k: int)
    requires forall i :: 0 <= i < |s| ==> key(s[i]) != k
    requires forall i :: 0 <= i < |t| ==> key(t[i]) == k
    ensures Select(s + t, key, k) == t
  {
    SelectConcat(s, t, key, k);
    SelectNone(s, key, k);
    SelectAll(t, key, k);
    assert [] + t == t;
  }

  /** Selecting from `s + t` when `t` lacks the key looks only at `s`. */
  lemma SelectNotRight<T>(s: seq<T>, t: seq<T>, key: T -> int, k: int)
    requires forall i :: 0 <= i < |t| ==> key(t[i]) != k
    ensures Select(s + t, key, k) == Select(s, key, k)
  {
    SelectConcat(s, t, key, k);
    SelectNone(t, key, k);
    assert Select(s, key, k) + [] == Select(s, key, k);
  }

  /** Kotlin's `find { name(it) == n }`: the first element carrying the name, if any. */
  function FindNamed<T(==)>(s: seq<T>, name: T -> string, n: string): (r: Option<T>)
    ensures r.Some? <==> exists i :: 0 <= i < |s| && name(s[i]) == n
    ensures r.Some? ==> exists i :: 0 <= i < |s| && s[i] == r.value && name(s[i]) == n
                          && forall j :: 0 <= j < i ==> name(s[j]) != n
  {
    if s == [] then None
    else if name(s[0]) == n then Some(s[0])
    else
      var r := FindNamed(s[1..], name, n);
      assert forall i :: 1 <= i < |s| ==> s[i] == s[1..][i - 1];
      if r.Some? then
        var i :| 0 <= i < |s[1..]| && s[1..][i] == r.value && name(s[1..][i]) == n
                 && forall j :: 0 <= j < i ==> name(s[1..][j]) != n;
        assert s[i + 1] == r.value;
        r
      else r
  }

  /** Under a unique index the element found is the only one carrying the name. */
  lemma FindNamedOnly<T>(s: seq<T>, name: T -> string, n: string)
    requires NamesDistinct(s, name)
    ensures FindNamed(s, name, n).Some? ==>
      forall i :: 0 <= i < |s| && name(s[i]) == n ==> s[i] == FindNamed(s, name, n).value
  {
    if FindNamed(s, name, n).Some? {
      var k :| 0 <= k < |s| && s[k] == FindNamed(s, name, n).value && name(s[k]) == n;
      forall i | 0 <= i < |s| && name(s[i]) == n ensures s[i] == s[k] {
        assert !(i < k) && !(k < i);
      }
    }
  }
}
