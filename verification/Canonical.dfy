/** Sorted lists without duplicates. A key is compared part by part, each part character by character;
    an entity, a link, a constraint and a risk signal are all determined by such a key. */
module Canonical {

  type Key = seq<string>

  predicate Before(a: string, b: string) {
    b != "" && (a == "" || a[0] < b[0] || (a[0] == b[0] && Before(a[1..], b[1..])))
  }

  predicate Less(a: Key, b: Key) {
    b != [] && (a == [] || Before(a[0], b[0]) || (a[0] == b[0] && Less(a[1..], b[1..])))
  }

  // ----- What the order is

  /** `a` and `b` agree on `k` characters, after which `a` ends or has the smaller one. */
  predicate DifferAt(a: string, b: string, k: nat) {
    k <= |a| && k < |b| && a[..k] == b[..k] && (k == |a| || a[k] < b[k])
  }

  lemma SharedStart<T>(a: seq<T>, b: seq<T>, k: nat)
    requires k <= |a| && k <= |b| && a[..k] == b[..k]
    ensures k > 0 ==> a[0] == b[0]
  {
    if k > 0 {
      assert a[..k][0] == b[..k][0];
    }
  }

  /** Strings are compared character by character, a prefix comes first. */
  lemma {:induction false} BeforeExactly(a: string, b: string)
    ensures Before(a, b) <==> exists k: nat :: DifferAt(a, b, k)
  {
    if a != "" && b != "" && a[0] == b[0] {
      BeforeExactly(a[1..], b[1..]);
      if Before(a, b) {
        var k: nat :| DifferAt(a[1..], b[1..], k);
        assert a[..k + 1] == [a[0]] + a[1..][..k] && b[..k + 1] == [b[0]] + b[1..][..k];
        assert DifferAt(a, b, k + 1);
      }
      if k: nat :| DifferAt(a, b, k) {
        assert k > 0;
        assert a[1..][..k - 1] == a[..k][1..] && b[1..][..k - 1] == b[..k][1..];
        assert DifferAt(a[1..], b[1..], k - 1);
      }
    } else if Before(a, b) {
      assert DifferAt(a, b, 0);
    } else if k: nat :| DifferAt(a, b, k) {
      SharedStart(a, b, k);
    }
  }

  predicate PartsDifferAt(a: Key, b: Key, k: nat) {
    k <= |a| && k < |b| && a[..k] == b[..k] && (k == |a| || Before(a[k], b[k]))
  }

  /** Keys are compared part by part. */
  lemma {:induction false} LessExactly(a: Key, b: Key)
    ensures Less(a, b) <==> exists k: nat :: PartsDifferAt(a, b, k)
  {
    hide Before;
    if a != [] && b != [] && a[0] == b[0] && !Before(a[0], b[0]) {
      LessExactly(a[1..], b[1..]);
      if Less(a, b) {
        var k: nat :| PartsDifferAt(a[1..], b[1..], k);
        assert a[..k + 1] == [a[0]] + a[1..][..k] && b[..k + 1] == [b[0]] + b[1..][..k];
        assert PartsDifferAt(a, b, k + 1);
      }
      if k: nat :| PartsDifferAt(a, b, k) {
        assert k > 0;
        assert a[1..][..k - 1] == a[..k][1..] && b[1..][..k - 1] == b[..k][1..];
        assert PartsDifferAt(a[1..], b[1..], k - 1);
      }
    } else if Less(a, b) {
      assert PartsDifferAt(a, b, 0);
    } else if k: nat :| PartsDifferAt(a, b, k) {
      SharedStart(a, b, k);
    }
  }

  // ----- The order is total

  lemma {:induction false} BeforeIsStrict(a: string, b: string)
    ensures !(Before(a, b) && Before(b, a)) && !Before(a, a)
  {
    if a != "" {
      BeforeIsStrict(a[1..], if b == "" then "" else b[1..]);
    }
  }

  lemma {:induction false} BeforeIsTransitive(a: string, b: string, c: string)
    requires Before(a, b) && Before(b, c)
    ensures Before(a, c)
  {
    if a != "" && a[0] == b[0] == c[0] {
      BeforeIsTransitive(a[1..], b[1..], c[1..]);
    }
  }

  lemma {:induction false} BeforeIsTotal(a: string, b: string)
    ensures Before(a, b) || a == b || Before(b, a)
  {
    if a != "" && b != "" && a[0] == b[0] {
      BeforeIsTotal(a[1..], b[1..]);
      assert a == [a[0]] + a[1..] && b == [b[0]] + b[1..];
    }
  }

  lemma {:induction false} LessIsStrict(a: Key, b: Key)
    ensures !(Less(a, b) && Less(b, a)) && !Less(a, a)
  {
    hide Before;
    if a != [] {
      LessIsStrict(a[1..], if b == [] then [] else b[1..]);
      BeforeIsStrict(a[0], if b == [] then "" else b[0]);
      BeforeIsStrict(a[0], a[0]);
    }
  }

  lemma {:induction false} LessIsTransitive(a: Key, b: Key, c: Key)
    requires Less(a, b) && Less(b, c)
    ensures Less(a, c)
  {
    hide Before;
    if a != [] {
      if Before(a[0], b[0]) && Before(b[0], c[0]) {
        BeforeIsTransitive(a[0], b[0], c[0]);
      } else if a[0] == b[0] == c[0] && !Before(a[0], c[0]) {
        BeforeIsStrict(a[0], a[0]);
        LessIsTransitive(a[1..], b[1..], c[1..]);
      }
    }
  }

  lemma {:induction false} LessIsTotal(a: Key, b: Key)
    ensures Less(a, b) || a == b || Less(b, a)
  {
    hide Before;
    if a != [] && b != [] {
      BeforeIsTotal(a[0], b[0]);
      if a[0] == b[0] {
        LessIsTotal(a[1..], b[1..]);
        assert a == [a[0]] + a[1..] && b == [b[0]] + b[1..];
      }
    }
  }

  // ----- One canonical list for a set of keys

  ghost predicate Ascending(s: seq<Key>) {
    forall i, j :: 0 <= i < j < |s| ==> Less(s[i], s[j])
  }

  ghost predicate SameKeys(s: seq<Key>, t: seq<Key>) {
    forall k: Key :: k in s <==> k in t
  }

  /** A strictly increasing list is determined by what is in it. */
  lemma {:induction false} AscendingIsUnique(s: seq<Key>, t: seq<Key>)
    requires Ascending(s) && Ascending(t) && SameKeys(s, t)
    ensures s == t
  {
    hide Less;
    assert s != [] ==> s[0] in t;
    assert t != [] ==> t[0] in s;
    if s != [] {
      SameHeads(s, t);
      SameTails(s, t);
      AscendingIsUnique(s[1..], t[1..]);
      assert s == [s[0]] + s[1..] && t == [t[0]] + t[1..];
    }
  }

  lemma SameHeads(s: seq<Key>, t: seq<Key>)
    requires Ascending(s) && Ascending(t) && SameKeys(s, t) && s != [] && t != []
    ensures s[0] == t[0]
  {
    hide Less;
    assert s[0] in t && t[0] in s;
    var i :| 0 <= i < |t| && t[i] == s[0];
    var j :| 0 <= j < |s| && s[j] == t[0];
    LessIsStrict(s[0], t[0]);
  }

  lemma SameTails(s: seq<Key>, t: seq<Key>)
    requires Ascending(s) && Ascending(t) && SameKeys(s, t) && s != [] && t != [] && s[0] == t[0]
    ensures Ascending(s[1..]) && Ascending(t[1..]) && SameKeys(s[1..], t[1..])
  {
    hide Less;
    forall k: Key ensures k in s[1..] <==> k in t[1..] {
      TailMembers(s, k);
      TailMembers(t, k);
      assert k in s <==> k in t;
    }
  }

  lemma TailMembers(s: seq<Key>, k: Key)
    requires Ascending(s) && s != []
    ensures k in s[1..] <==> k in s && k != s[0]
  {
    hide Less;
    LessIsStrict(k, k);
  }

  // ----- Sorting, then dropping repetitions

  ghost predicate NonDescending(s: seq<Key>) {
    forall i, j :: 0 <= i < j < |s| ==> !Less(s[j], s[i])
  }

  /** A sort that only promises order: equal keys may end up in any order. */
  method Sort(items: seq<Key>) returns (r: seq<Key>)
    ensures NonDescending(r) && SameKeys(r, items)
  {
    r := [];
    assert SameKeys(r, []) && items[..0] == [];
    hide Less, SameKeys;
    for n := 0 to |items|
      invariant NonDescending(r) && SameKeys(r, items[..n])
    {
      var p := |r|;
      while p > 0 && Less(items[n], r[p - 1])
        invariant 0 <= p <= |r|
        invariant forall j :: p <= j < |r| ==> Less(items[n], r[j])
      {
        p := p - 1;
      }
      InsertKeeps(r, items[n], p);
      InsertedKeys(r, items[..n], items[n], p);
      assert items[..n + 1] == items[..n] + [items[n]];
      r := r[..p] + [items[n]] + r[p..];
    }
    assert items[..|items|] == items;
  }

  lemma InsertKeeps(r: seq<Key>, k: Key, p: nat)
    requires NonDescending(r) && p <= |r|
    requires forall j :: p <= j < |r| ==> Less(k, r[j])
    requires p > 0 ==> !Less(k, r[p - 1])
    ensures NonDescending(r[..p] + [k] + r[p..])
  {
    hide Less;
    var s := r[..p] + [k] + r[p..];
    forall i, j | 0 <= i < j < |s| ensures !Less(s[j], s[i]) {
      if j == p {
        if i < p - 1 && Less(k, r[i]) {
          LessIsTotal(r[i], r[p - 1]);
          if Less(r[i], r[p - 1]) {
            LessIsTransitive(k, r[i], r[p - 1]);
          }
        }
      } else if i == p {
        LessIsStrict(k, r[j - 1]);
      } else {
        assert s[i] == r[if i < p then i else i - 1] && s[j] == r[if j < p then j else j - 1];
      }
    }
  }

  lemma InsertedKeys(r: seq<Key>, done: seq<Key>, k: Key, p: nat)
    requires SameKeys(r, done) && p <= |r|
    ensures SameKeys(r[..p] + [k] + r[p..], done + [k])
  {
    assert r == r[..p] + r[p..];
  }

  /** Each key at its first occurrence. */
  function FirstSeen(s: seq<Key>): seq<Key> {
    if s == [] then []
    else
      var before := FirstSeen(s[..|s| - 1]);
      if s[|s| - 1] in before then before else before + [s[|s| - 1]]
  }

  method Dedupe(items: seq<Key>) returns (r: seq<Key>)
    ensures r == FirstSeen(items)
  {
    var seen: set<Key> := {};
    r := [];
    assert items[..0] == [];
    for n := 0 to |items|
      invariant r == FirstSeen(items[..n]) && forall k :: k in seen <==> k in r
    {
      assert items[..n + 1][..n] == items[..n];
      if items[n] !in seen {
        seen := seen + {items[n]};
        r := r + [items[n]];
      }
    }
    assert items[..|items|] == items;
  }

  lemma {:induction false} FirstSeenKeys(s: seq<Key>)
    ensures SameKeys(FirstSeen(s), s)
  {
    if s != [] {
      var init := s[..|s| - 1];
      FirstSeenKeys(init);
      assert s == init + [s[|s| - 1]];
    }
  }

  lemma {:induction false} FirstSeenAscends(s: seq<Key>)
    requires NonDescending(s)
    ensures Ascending(FirstSeen(s))
  {
    hide Less;
    if s != [] {
      var n := |s| - 1;
      FirstSeenAscends(s[..n]);
      FirstSeenKeys(s[..n]);
      var before := FirstSeen(s[..n]);
      if s[n] !in before {
        forall i | 0 <= i < |before| ensures Less(before[i], s[n]) {
          assert before[i] in s[..n];
          var j :| 0 <= j < n && s[j] == before[i];
          LessIsTotal(before[i], s[n]);
        }
      }
    }
  }

  /** The list of a set of keys: what sorting and then dropping repetitions yields. */
  ghost predicate Lists(r: seq<Key>, items: seq<Key>) {
    Ascending(r) && SameKeys(r, items)
  }

  method SortDistinct(items: seq<Key>) returns (r: seq<Key>)
    ensures r == ListOf(items)
  {
    hide Less, FirstSeen, NonDescending, Ascending;
    var sorted := Sort(items);
    r := Dedupe(sorted);
    FirstSeenAscends(sorted);
    FirstSeenKeys(sorted);
    ListIsListOf(r, items);
  }

  /** The list of some keys, built one key at a time. */
  ghost function ListOf(items: seq<Key>): seq<Key> {
    if items == [] then [] else Insert(ListOf(items[..|items| - 1]), items[|items| - 1])
  }

  ghost function Insert(r: seq<Key>, k: Key): seq<Key> {
    if r == [] || Less(k, r[0]) then [k] + r
    else if k == r[0] then r
    else [r[0]] + Insert(r[1..], k)
  }

  lemma {:induction false} InsertedMember(r: seq<Key>, k: Key, x: Key)
    ensures x in Insert(r, k) <==> x in r || x == k
  {
    hide Less;
    if r != [] && !Less(k, r[0]) && k != r[0] {
      InsertedMember(r[1..], k, x);
      assert r == [r[0]] + r[1..];
    }
  }

  lemma {:induction false} InsertAscends(r: seq<Key>, k: Key)
    requires Ascending(r)
    ensures Ascending(Insert(r, k))
  {
    hide Less;
    if r != [] {
      if Less(k, r[0]) {
        forall i | 0 <= i < |r| ensures Less(k, r[i]) {
          if i > 0 {
            LessIsTransitive(k, r[0], r[i]);
          }
        }
      } else if k != r[0] {
        LessIsTotal(k, r[0]);
        InsertAscends(r[1..], k);
        var t := Insert(r[1..], k);
        forall i | 0 <= i < |t| ensures Less(r[0], t[i]) {
          InsertedMember(r[1..], k, t[i]);
        }
      }
    }
  }

  lemma {:induction false} ListOfLists(items: seq<Key>)
    ensures Lists(ListOf(items), items)
  {
    assert Ascending([]);
    hide Less, Insert, Ascending;
    if items != [] {
      var n := |items| - 1;
      ListOfLists(items[..n]);
      InsertAscends(ListOf(items[..n]), items[n]);
      forall x ensures x in ListOf(items) <==> x in items {
        InsertedMember(ListOf(items[..n]), items[n], x);
        assert items == items[..n] + [items[n]];
      }
    }
  }

  /** Two sources with the same keys have the same list, whatever their order and repetitions. */
  lemma ListIsCanonical(r: seq<Key>, items: seq<Key>, r': seq<Key>, items': seq<Key>)
    requires Lists(r, items) && Lists(r', items') && SameKeys(items, items')
    ensures r == r'
  {
    hide Less, Ascending;
    AscendingIsUnique(r, r');
  }

  lemma ListIsListOf(r: seq<Key>, items: seq<Key>)
    requires Lists(r, items)
    ensures r == ListOf(items)
  {
    hide Less, Ascending, ListOf;
    ListOfLists(items);
    ListIsCanonical(r, items, ListOf(items), items);
  }
}
