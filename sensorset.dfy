/** The ordered sensor set (SensorSlice) whose insert-or-replace contract is
    fixed by miflora/miflora_test.go: sensors sorted strictly by address,
    no address twice, and inserting a known address replaces its entry. */
module SensorSet {

  /** A discovered sensor, identified by its address string. */
  datatype Sensor = Sensor(address: string, name: string)

  /** Go's string order: lexicographic, a proper prefix first. */
  predicate Less(a: string, b: string)
    decreases |a|
  {
    if |a| == 0 then |b| > 0
    else if |b| == 0 then false
    else if a[0] != b[0] then a[0] < b[0]
    else Less(a[1..], b[1..])
  }

  /** A proper prefix sorts first. */
  lemma {:induction false} LessPrefix(a: string, b: string)
    requires |a| < |b| && a == b[..|a|]
    ensures Less(a, b)
    decreases |a|
  {
    if |a| > 0 {
      assert a[1..] == b[1..][..|a| - 1];
      LessPrefix(a[1..], b[1..]);
    }
  }

  lemma {:induction false} LessIrreflexive(a: string)
    ensures !Less(a, a)
    decreases |a|
  {
    if |a| > 0 {
      LessIrreflexive(a[1..]);
    }
  }

  lemma {:induction false} LessAsymmetric(a: string, b: string)
    requires Less(a, b)
    ensures !Less(b, a)
    decreases |a|
  {
    if |a| > 0 && |b| > 0 && a[0] == b[0] {
      LessAsymmetric(a[1..], b[1..]);
    }
  }

  lemma {:induction false} LessTotal(a: string, b: string)
    requires a != b
    ensures Less(a, b) || Less(b, a)
    decreases |a|
  {
    if |a| > 0 && |b| > 0 && a[0] == b[0] {
      assert a == [a[0]] + a[1..] && b == [b[0]] + b[1..];
      LessTotal(a[1..], b[1..]);
    }
  }

  lemma {:induction false} LessTransitive(a: string, b: string, c: string)
    requires Less(a, b) && Less(b, c)
    ensures Less(a, c)
    decreases |a|
  {
    if |a| > 0 && a[0] == b[0] && b[0] == c[0] {
      LessTransitive(a[1..], b[1..], c[1..]);
    }
  }

  /** Strictly ascending by address, hence no address twice. */
  predicate Sorted(s: seq<Sensor>) {
    forall i, j :: 0 <= i < j < |s| ==> Less(s[i].address, s[j].address)
  }

  function Addresses(s: seq<Sensor>): set<string> {
    set i | 0 <= i < |s| :: s[i].address
  }

  lemma SortedDistinct(s: seq<Sensor>, i: int, j: int)
    requires Sorted(s) && 0 <= i < |s| && 0 <= j < |s| && i != j
    ensures s[i].address != s[j].address
  {
    if i < j {
      LessIrreflexive(s[i].address);
    } else {
      LessIrreflexive(s[j].address);
    }
  }

  /** The set after insertSorted: x takes the place of the entry with its
      address if there is one, and otherwise goes before the first larger
      address. */
  function Insert(s: seq<Sensor>, x: Sensor): seq<Sensor> {
    if s == [] then [x]
    else if s[0].address == x.address then [x] + s[1..]
    else if Less(x.address, s[0].address) then [x] + s
    else [s[0]] + Insert(s[1..], x)
  }

  /** Every entry of the result is x or an entry of s; x is in it, and so is
      every entry of s with another address. */
  lemma {:induction false} InsertContents(s: seq<Sensor>, x: Sensor)
    ensures x in Insert(s, x)
    ensures forall y :: y in Insert(s, x) ==> y == x || y in s
    ensures forall y :: y in s && y.address != x.address ==> y in Insert(s, x)
  {
    if s != [] && s[0].address != x.address && !Less(x.address, s[0].address) {
      InsertContents(s[1..], x);
      assert s == [s[0]] + s[1..];
    }
  }

  /** insertSorted keeps the set sorted. */
  lemma {:induction false} InsertKeepsSorted(s: seq<Sensor>, x: Sensor)
    requires Sorted(s)
    ensures Sorted(Insert(s, x))
  {
    if s == [] {
    } else if s[0].address == x.address {
      ReplaceHeadSorted(s, x);
    } else if Less(x.address, s[0].address) {
      PrependSorted(s, x);
    } else {
      LessTotal(x.address, s[0].address);
      InsertKeepsSorted(s[1..], x);
      InsertContents(s[1..], x);
      assert s == [s[0]] + s[1..];
      ConsSorted(s[0], s[1..], x, Insert(s[1..], x));
    }
  }

  lemma ReplaceHeadSorted(s: seq<Sensor>, x: Sensor)
    requires Sorted(s) && |s| > 0 && s[0].address == x.address
    ensures Sorted([x] + s[1..])
  {
    var r := [x] + s[1..];
    forall i, j | 0 <= i < j < |r|
      ensures Less(r[i].address, r[j].address)
    {
      assert r[j] == s[j];
      assert i == 0 || r[i] == s[i];
    }
  }

  lemma PrependSorted(s: seq<Sensor>, x: Sensor)
    requires Sorted(s) && |s| > 0 && Less(x.address, s[0].address)
    ensures Sorted([x] + s)
  {
    var r := [x] + s;
    forall i, j | 0 <= i < j < |r|
      ensures Less(r[i].address, r[j].address)
    {
      if i == 0 && j > 1 {
        LessTransitive(x.address, s[0].address, s[j - 1].address);
      } else if i > 0 {
        assert r[i] == s[i - 1] && r[j] == s[j - 1];
      }
    }
  }

  /** A sorted tail whose entries are x or entries of the old tail stays
      sorted behind a head smaller than all of them. */
  lemma ConsSorted(h: Sensor, s: seq<Sensor>, x: Sensor, t: seq<Sensor>)
    requires Sorted([h] + s) && Sorted(t) && Less(h.address, x.address)
    requires forall y :: y in t ==> y == x || y in s
    ensures Sorted([h] + t)
  {
    var r := [h] + t;
    forall i, j | 0 <= i < j < |r|
      ensures Less(r[i].address, r[j].address)
    {
      if i == 0 {
        assert r[0] == h && r[j] == t[j - 1] && r[j] in t;
        if r[j] != x {
          var k :| 0 <= k < |s| && s[k] == r[j];
          var hs := [h] + s;
          assert hs[0] == h && hs[k + 1] == r[j];
          assert Less(hs[0].address, hs[k + 1].address);
        }
      } else {
        assert r[i] == t[i - 1] && r[j] == t[j - 1];
      }
    }
  }

  /** The address set grows by exactly x's address; the length grows by one
      unless the address was already present, in which case it is kept. */
  lemma {:induction false} InsertAddresses(s: seq<Sensor>, x: Sensor)
    requires Sorted(s)
    ensures Addresses(Insert(s, x)) == Addresses(s) + {x.address}
    ensures |Insert(s, x)| == if x.address in Addresses(s) then |s| else |s| + 1
  {
    var r := Insert(s, x);
    InsertContents(s, x);
    forall a | a in Addresses(r)
      ensures a in Addresses(s) + {x.address}
    {
      var i :| 0 <= i < |r| && r[i].address == a;
      assert r[i] in r;
    }
    forall a | a in Addresses(s) + {x.address}
      ensures a in Addresses(r)
    {
      if a == x.address {
        var i :| 0 <= i < |r| && r[i] == x;
      } else {
        var i :| 0 <= i < |s| && s[i].address == a;
        assert s[i] in s;
        var j :| 0 <= j < |r| && r[j] == s[i];
      }
    }
    InsertLength(s, x);
  }

  lemma {:induction false} InsertLength(s: seq<Sensor>, x: Sensor)
    requires Sorted(s)
    ensures |Insert(s, x)| == if x.address in Addresses(s) then |s| else |s| + 1
  {
    if s == [] {
    } else if s[0].address == x.address {
    } else if Less(x.address, s[0].address) {
      forall i | 0 <= i < |s|
        ensures s[i].address != x.address
      {
        if i > 0 {
          LessTransitive(x.address, s[0].address, s[i].address);
        }
        LessIrreflexive(x.address);
      }
    } else {
      InsertLength(s[1..], x);
      assert Addresses(s) == {s[0].address} + Addresses(s[1..]) by {
        forall a | a in Addresses(s)
          ensures a in {s[0].address} + Addresses(s[1..])
        {
          var i :| 0 <= i < |s| && s[i].address == a;
          if i > 0 {
            assert s[1..][i - 1] == s[i];
          }
        }
      }
    }
  }

  /** Where the binary search stops: every address before lo is smaller
      than x's, no address from lo on is. */
  predicate SplitsAt(s: seq<Sensor>, x: Sensor, lo: int) {
    0 <= lo <= |s|
    && (forall i :: 0 <= i < lo ==> Less(s[i].address, x.address))
    && (forall i :: lo <= i < |s| ==> !Less(s[i].address, x.address))
  }

  /** Where the entries after x resume: past the entry at lo when it has
      x's address, at lo otherwise. */
  function Resume(s: seq<Sensor>, x: Sensor, lo: int): int
    requires 0 <= lo <= |s|
  {
    if lo < |s| && s[lo].address == x.address then lo + 1 else lo
  }

  /** Insert spelled out at the search position: replace the entry there if
      it has x's address, otherwise put x before it. */
  lemma {:induction false} InsertSplit(s: seq<Sensor>, x: Sensor, lo: int)
    requires Sorted(s) && SplitsAt(s, x, lo)
    ensures Insert(s, x) == s[..lo] + [x] + s[Resume(s, x, lo)..]
  {
    if s == [] {
    } else if s[0].address == x.address {
      LessIrreflexive(x.address);
    } else if Less(x.address, s[0].address) {
      LessAsymmetric(x.address, s[0].address);
    } else {
      LessTotal(x.address, s[0].address);
      assert Insert(s, x) == [s[0]] + Insert(s[1..], x);
      SplitsAtTail(s, x, lo);
      InsertSplit(s[1..], x, lo - 1);
      InsertSplitStep(s, x, lo);
    }
  }

  /** The step of InsertSplit: the split of the tail, behind the head. */
  lemma InsertSplitStep(s: seq<Sensor>, x: Sensor, lo: int)
    requires 0 < lo <= |s|
    requires Insert(s, x) == [s[0]] + Insert(s[1..], x)
    requires Insert(s[1..], x) == s[1..][..lo - 1] + [x] + s[1..][Resume(s[1..], x, lo - 1)..]
    ensures Insert(s, x) == s[..lo] + [x] + s[Resume(s, x, lo)..]
  {
    assert lo < |s| ==> s[1..][lo - 1] == s[lo];
    SpliceTail(s, lo, Resume(s, x, lo), x);
  }

  /** Splicing x into s between lo and k keeps s's head in front. */
  lemma SpliceTail(s: seq<Sensor>, lo: int, k: int, x: Sensor)
    requires 0 < lo <= k <= |s|
    ensures s[..lo] + [x] + s[k..] == [s[0]] + (s[1..][..lo - 1] + [x] + s[1..][k - 1..])
  {
    assert s[..lo] == [s[0]] + s[1..][..lo - 1];
    assert s[k..] == s[1..][k - 1..];
  }

  lemma SplitsAtTail(s: seq<Sensor>, x: Sensor, lo: int)
    requires SplitsAt(s, x, lo) && |s| > 0 && Less(s[0].address, x.address)
    ensures lo > 0 && SplitsAt(s[1..], x, lo - 1)
  {
    var t := s[1..];
    forall i | 0 <= i < lo - 1
      ensures Less(t[i].address, x.address)
    {
      assert t[i] == s[i + 1];
    }
    forall i | lo - 1 <= i < |t|
      ensures !Less(t[i].address, x.address)
    {
      assert t[i] == s[i + 1];
    }
  }

  /** x's address is present exactly when the search stops on it. */
  lemma SplitFindsAddress(s: seq<Sensor>, x: Sensor, lo: int)
    requires Sorted(s) && SplitsAt(s, x, lo)
    ensures x.address in Addresses(s) <==> lo < |s| && s[lo].address == x.address
  {
    if x.address in Addresses(s) {
      var i :| 0 <= i < |s| && s[i].address == x.address;
      LessIrreflexive(x.address);
    }
  }

  /** The smaller-than-x prefix of a sorted set is closed downwards. */
  lemma SortedBelow(s: seq<Sensor>, x: Sensor, m: int)
    requires Sorted(s) && 0 <= m < |s| && Less(s[m].address, x.address)
    ensures forall i :: 0 <= i <= m ==> Less(s[i].address, x.address)
  {
    forall i | 0 <= i < m
      ensures Less(s[i].address, x.address)
    {
      LessTransitive(s[i].address, s[m].address, x.address);
    }
  }

  /** ... and its complement upwards. */
  lemma SortedAbove(s: seq<Sensor>, x: Sensor, m: int)
    requires Sorted(s) && 0 <= m < |s| && !Less(s[m].address, x.address)
    ensures forall i :: m <= i < |s| ==> !Less(s[i].address, x.address)
  {
    forall i | m < i < |s|
      ensures !Less(s[i].address, x.address)
    {
      if Less(s[i].address, x.address) {
        LessTransitive(s[m].address, s[i].address, x.address);
      }
    }
  }

  /** The binary search of insertSorted: the first position whose address
      is not smaller than x's. */
  method SearchPosition(s: seq<Sensor>, x: Sensor) returns (lo: int)
    requires Sorted(s)
    ensures SplitsAt(s, x, lo)
  {
    lo := 0;
    var hi := |s|;
    while lo < hi
      invariant 0 <= lo <= hi <= |s|
      invariant forall i :: 0 <= i < lo ==> Less(s[i].address, x.address)
      invariant forall i :: hi <= i < |s| ==> !Less(s[i].address, x.address)
      decreases hi - lo
    {
      var mid := (lo + hi) / 2;
      if Less(s[mid].address, x.address) {
        SortedBelow(s, x, mid);
        lo := mid + 1;
      } else {
        SortedAbove(s, x, mid);
        hi := mid;
      }
    }
  }

  /** insertSorted: replace the entry at the search position if it has x's
      address, otherwise insert x there. */
  method InsertSorted(s: seq<Sensor>, x: Sensor) returns (r: seq<Sensor>, existed: bool)
    requires Sorted(s)
    ensures r == Insert(s, x)
    ensures existed <==> x.address in Addresses(s)
  {
    var lo := SearchPosition(s, x);
    InsertSplit(s, x, lo);
    SplitFindsAddress(s, x, lo);
    if lo < |s| && s[lo].address == x.address {
      r, existed := s[lo := x], true;
      assert r == s[..lo] + [x] + s[lo + 1..];
    } else {
      r, existed := s[..lo] + [x] + s[lo..], false;
    }
  }

  /** The sequence of the test: b, b again under the name "replace", then a,
      then c; the set ends as a, b ("replace"), c, and only the second
      insert finds its address present. */
  lemma InsertScenario()
    ensures var b := Sensor("b", ""); var b2 := Sensor("b", "replace");
      var a := Sensor("a", ""); var c := Sensor("c", "");
      && Insert([], b) == [b]
      && "b" !in Addresses([])
      && Insert([b], b2) == [b2] && "b" in Addresses([b])
      && Insert([b2], a) == [a, b2] && "a" !in Addresses([b2])
      && Insert([a, b2], c) == [a, b2, c] && "c" !in Addresses([a, b2])
  {
    var b2 := Sensor("b", "replace");
    var a := Sensor("a", "");
    var c := Sensor("c", "");
    assert Less("a", "b");
    assert !Less("c", "a") && !Less("c", "b");
    assert Insert([b2], c) == [b2, c];
    assert Addresses([a, b2]) == {"a", "b"} by {
      assert [a, b2][0].address == "a" && [a, b2][1].address == "b";
    }
    assert Addresses([b2]) == {"b"} by {
      assert [b2][0].address == "b";
    }
  }
}
