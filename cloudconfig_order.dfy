/**
 * The order in which cloud-config directives run: each directive name gets a
 * priority from the configured ordering list (`cloud_config_plugins`), and the
 * (name, payload) pairs are stable-sorted by that priority.
 */
module CloudConfigOrder {

  /** Priority of a name the ordering list does not mention (DEFAULT_ORDER_VALUE). */
  const DefaultOrderValue: nat := 999

  /** One top-level entry of a cloud-config document: a directive name and its payload. */
  datatype Directive<P> = Directive(name: string, payload: P)

  /** Zero-based index of the first occurrence of `name`, as Python's `list.index`. */
  function IndexOf(order: seq<string>, name: string): (r: nat)
    requires name in order
    ensures r < |order| && order[r] == name
    ensures forall j :: 0 <= j < r ==> order[j] != name
  {
    if order[0] == name then 0 else 1 + IndexOf(order[1..], name)
  }

  /**
   * `_lookup_priority`: the index of the name's first occurrence in the
   * ordering list, or the sentinel when `list.index` raises ValueError.
   */
  function Priority(order: seq<string>, name: string): (r: nat)
    ensures name in order ==> r < |order| && order[r] == name && forall j :: 0 <= j < r ==> order[j] != name
    ensures name !in order ==> r == DefaultOrderValue
  {
    if name in order then IndexOf(order, name) else DefaultOrderValue
  }

  /**
   * Non-decreasing key from left to right. The sort below is written over an
   * arbitrary key, as Python's `sorted(..., key=...)` is.
   */
  ghost predicate SortedBy<T>(key: T -> nat, s: seq<T>)
  {
    forall i, j :: 0 <= i < j < |s| ==> key(s[i]) <= key(s[j])
  }

  /** The entries of `s` whose key is `k`, in the order `s` has them. */
  function WithKey<T>(key: T -> nat, s: seq<T>, k: nat): seq<T>
  {
    if s == [] then []
    else
      var last := s[|s| - 1];
      WithKey(key, s[..|s| - 1], k) + (if key(last) == k then [last] else [])
  }

  /**
   * Places `x` after every entry of the sorted `t` whose key is at most its
   * own, so that among equal keys `x` comes last.
   */
  function Insert<T>(key: T -> nat, t: seq<T>, x: T): (r: seq<T>)
    requires SortedBy(key, t)
    ensures SortedBy(key, r)
    ensures |r| == |t| + 1
    ensures forall i :: 0 <= i < |r| ==> r[i] == x || r[i] in t
    ensures multiset(r) == multiset(t) + multiset{x}
  {
    if t == [] then [x]
    else
      var init, last := t[..|t| - 1], t[|t| - 1];
      if key(last) <= key(x) then t + [x]
      else
        var r' := Insert(key, init, x);
        assert t == init + [last];
        forall i | 0 <= i < |r'|
          ensures key(r'[i]) <= key(last)
        {
          if r'[i] != x {
            var k :| 0 <= k < |init| && init[k] == r'[i];
            assert t[k] == r'[i];
          }
        }
        r' + [last]
  }

  /** A stable sort by `key`: a permutation of `s` in non-decreasing key order. */
  function Sort<T>(key: T -> nat, s: seq<T>): (r: seq<T>)
    ensures SortedBy(key, r)
    ensures |r| == |s|
    ensures multiset(r) == multiset(s)
  {
    if s == [] then []
    else
      var init, last := s[..|s| - 1], s[|s| - 1];
      assert s == init + [last];
      Insert(key, Sort(key, init), last)
  }

  /** The sort key of `sorted(plugins.items(), key=lambda item: _lookup_priority(item[0]))`. */
  function PriorityKey<P>(order: seq<string>): Directive<P> -> nat
  {
    (d: Directive<P>) => Priority(order, d.name)
  }

  /**
   * `_expected_plugins`: the pairs as a permutation of the input in
   * non-decreasing priority, each priority class in input order.
   */
  function SortByPriority<P>(order: seq<string>, plugins: seq<Directive<P>>): (r: seq<Directive<P>>)
    ensures |r| == |plugins| && multiset(r) == multiset(plugins)
    ensures forall i, j :: 0 <= i < j < |r| ==> Priority(order, r[i].name) <= Priority(order, r[j].name)
  {
    var r := Sort(PriorityKey(order), plugins);
    assert SortedBy(PriorityKey(order), r);
    r
  }

  lemma {:induction false} WithKeyNone<T>(key: T -> nat, s: seq<T>, k: nat)
    requires forall i :: 0 <= i < |s| ==> key(s[i]) != k
    ensures WithKey(key, s, k) == []
  {
    if s != [] {
      WithKeyNone(key, s[..|s| - 1], k);
    }
  }

  /** Inserting `x` adds it at the end of its own key class and leaves the other classes alone. */
  lemma {:induction false} InsertWithKey<T>(key: T -> nat, t: seq<T>, x: T, k: nat)
    requires SortedBy(key, t)
    ensures WithKey(key, Insert(key, t, x), k) == WithKey(key, t, k) + (if key(x) == k then [x] else [])
  {
    if t != [] {
      var init, last := t[..|t| - 1], t[|t| - 1];
      if key(last) <= key(x) {
        assert (t + [x])[..|t|] == t;
      } else {
        var r' := Insert(key, init, x);
        InsertWithKey(key, init, x, k);
        assert (r' + [last])[..|r'|] == r';
      }
    }
  }

  /** Stability: within every key class the sort keeps the input order. */
  lemma {:induction false} SortStable<T>(key: T -> nat, s: seq<T>, k: nat)
    ensures WithKey(key, Sort(key, s), k) == WithKey(key, s, k)
  {
    if s != [] {
      var init, last := s[..|s| - 1], s[|s| - 1];
      SortStable(key, init, k);
      InsertWithKey(key, Sort(key, init), last, k);
    }
  }

  /**
   * A sorted sequence is determined by its key classes: any stable sort by
   * the same key (Python's `sorted` among them) produces exactly `Sort`.
   */
  lemma {:induction false} StableSortUnique<T>(key: T -> nat, a: seq<T>, b: seq<T>)
    requires SortedBy(key, a) && SortedBy(key, b)
    requires forall k :: WithKey(key, a, k) == WithKey(key, b, k)
    ensures a == b
  {
    if a == [] && b != [] {
      var k := key(b[|b| - 1]);
      var w := WithKey(key, b, k);
      assert false;
    } else if a != [] && b == [] {
      var k := key(a[|a| - 1]);
      var w := WithKey(key, a, k);
      assert false;
    } else if a != [] {
      var a', b' := a[..|a| - 1], b[..|b| - 1];
      var la, lb := a[|a| - 1], b[|b| - 1];
      if key(la) < key(lb) {
        WithKeyNone(key, a, key(lb));
        assert false;
      } else if key(lb) < key(la) {
        WithKeyNone(key, b, key(la));
        assert false;
      }
      var k := key(la);
      var wa, wb := WithKey(key, a, k), WithKey(key, b, k);
      assert wa == WithKey(key, a', k) + [la];
      assert wb == WithKey(key, b', k) + [lb];
      assert wa[|wa| - 1] == la && wb[|wb| - 1] == lb;
      forall k' ensures WithKey(key, a', k') == WithKey(key, b', k') {
        assert WithKey(key, a, k') == WithKey(key, b, k');
        if k' == k {
          assert WithKey(key, a', k') == wa[..|wa| - 1];
          assert WithKey(key, b', k') == wb[..|wb| - 1];
        } else {
          assert WithKey(key, a, k') == WithKey(key, a', k');
          assert WithKey(key, b, k') == WithKey(key, b', k');
        }
      }
      StableSortUnique(key, a', b');
      assert a == a' + [la] && b == b' + [lb];
    }
  }

  /** Stability of `_expected_plugins`: each priority class keeps the document's order. */
  lemma SortByPriorityStable<P>(order: seq<string>, plugins: seq<Directive<P>>, p: nat)
    ensures WithKey(PriorityKey(order), SortByPriority(order, plugins), p) == WithKey(PriorityKey(order), plugins, p)
  {
    SortStable(PriorityKey(order), plugins, p);
  }

  /**
   * `_expected_plugins` is the only sequence of the input pairs that is
   * ordered by priority and stable, whatever stable algorithm computes it.
   */
  lemma SortByPriorityUnique<P>(order: seq<string>, plugins: seq<Directive<P>>, other: seq<Directive<P>>)
    requires forall i, j :: 0 <= i < j < |other| ==> Priority(order, other[i].name) <= Priority(order, other[j].name)
    requires forall p :: WithKey(PriorityKey(order), other, p) == WithKey(PriorityKey(order), plugins, p)
    ensures other == SortByPriority(order, plugins)
  {
    var key := PriorityKey(order);
    var r := SortByPriority(order, plugins);
    forall p ensures WithKey(key, r, p) == WithKey(key, other, p) {
      SortStable(key, plugins, p);
    }
    assert SortedBy(key, other);
    StableSortUnique(key, r, other);
  }

  /**
   * While the ordering list has at most 999 entries the sentinel is above
   * every index, so every listed directive runs before every unlisted one.
   */
  lemma ListedBeforeUnlisted<P>(order: seq<string>, s: seq<Directive<P>>)
    requires |order| <= DefaultOrderValue
    ensures forall i, j :: 0 <= i < j < |s| && SortByPriority(order, s)[j].name in order ==> SortByPriority(order, s)[i].name in order
  {
  }

  /**
   * The sentinel is reachable: a name listed with 1000 entries before it
   * sorts after a name that is not listed at all.
   */
  lemma SentinelReachable()
    ensures exists order: seq<string>, a: string, b: string ::
      a in order && b !in order && Priority(order, b) < Priority(order, a)
  {
    var order := seq(1000, _ => "x") + ["a"];
    assert order[1000] == "a";
    assert "b" !in order by {
      forall i | 0 <= i < |order| ensures order[i] != "b" {
        if i < 1000 { assert order[i] == "x"; }
      }
    }
    assert Priority(order, "a") == 1000;
    assert Priority(order, "b") == DefaultOrderValue;
  }
}
