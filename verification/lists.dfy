/** The sequence operations the editor's state updates are built from: the
    "map, replacing entry `id` with an updated copy" edit, removal at an index
    (and the reference filter the editor writes it as), the keyed update,
    the keyed filter and the first-match lookup. */
module Lists {
  import opened Base

  /** `s` with entry `id` replaced by `f` of itself. An `id` outside the list
      changes nothing, as `s.map((item, index) => index === id ? f(item) : item)`. */
  function MapAt<T>(s: seq<T>, id: int, f: T -> T): (r: seq<T>)
    ensures |r| == |s|
    ensures forall k :: 0 <= k < |s| && k != id ==> r[k] == s[k]
    ensures 0 <= id < |s| ==> r[id] == f(s[id])
    decreases |s|
  {
    if |s| == 0 then []
    else [if id == 0 then f(s[0]) else s[0]] + MapAt(s[1..], id - 1, f)
  }

  /** `s` without its entry at index `i`; an index outside the list removes nothing. */
  function RemoveAt<T>(s: seq<T>, i: int): (r: seq<T>)
    ensures 0 <= i < |s| ==> |r| == |s| - 1
    ensures 0 <= i < |s| ==> forall k :: 0 <= k < i ==> r[k] == s[k]
    ensures 0 <= i < |s| ==> forall k :: i <= k < |r| ==> r[k] == s[k + 1]
    ensures !(0 <= i < |s|) ==> r == s
  {
    if 0 <= i < |s| then s[..i] + s[i + 1..] else s
  }

  /** Reading index `i` of a JavaScript array: `undefined` outside the list. */
  function Lookup<T>(s: seq<T>, i: int): (r: Option<T>)
    ensures r.Some? <==> 0 <= i < |s|
    ensures r.Some? ==> r.value == s[i]
  {
    if 0 <= i < |s| then Some(s[i]) else None
  }

  /** `s.filter(item => item !== target)`: every entry except those equal to the target. */
  function FilterOut<T(==)>(s: seq<T>, target: Option<T>): (r: seq<T>)
    ensures |r| <= |s|
    ensures forall k :: 0 <= k < |r| ==> r[k] in s && Some(r[k]) != target
    ensures forall k :: 0 <= k < |s| && Some(s[k]) != target ==> s[k] in r
    decreases |s|
  {
    if |s| == 0 then []
    else (if Some(s[0]) == target then [] else [s[0]]) + FilterOut(s[1..], target)
  }

  /** No two entries of `s` are the same. The editor's lists hold distinct
      objects, so comparing entries by reference tells any two of them apart. */
  ghost predicate Distinct<T>(s: seq<T>)
  {
    forall a, b :: 0 <= a < |s| && 0 <= b < |s| && a != b ==> s[a] != s[b]
  }

  /** A target that is not in the list filters nothing out. */
  lemma {:induction false} FilterOutAbsent<T>(s: seq<T>, x: T)
    requires x !in s
    ensures FilterOut(s, Some(x)) == s
    decreases |s|
  {
    if |s| > 0 {
      assert s[1..] + [] == s[1..];
      FilterOutAbsent(s[1..], x);
      assert s == [s[0]] + s[1..];
    }
  }

  /** The tail of a list of distinct entries is distinct and misses the head. */
  lemma DistinctTail<T>(s: seq<T>)
    requires Distinct(s) && |s| > 0
    ensures Distinct(s[1..]) && s[0] !in s[1..]
  {
    var t := s[1..];
    forall k | 0 <= k < |t| ensures t[k] != s[0] {
      assert t[k] == s[k + 1];
    }
    forall a, b | 0 <= a < |t| && 0 <= b < |t| && a != b ensures t[a] != t[b] {
      assert t[a] == s[a + 1] && t[b] == s[b + 1];
    }
  }

  /** Removing a later entry keeps the head in front. */
  lemma RemoveAtTail<T>(s: seq<T>, i: int)
    requires 0 < i < |s|
    ensures RemoveAt(s, i) == [s[0]] + RemoveAt(s[1..], i - 1)
  {
    var t := s[1..];
    assert s[..i] == [s[0]] + t[..i - 1];
    assert s[i + 1..] == t[i..];
  }

  /** On a list of distinct entries, the delete handlers' reference filter
      `s.filter(item => item !== s[i])` is exactly removal at index `i`, for
      every `i`: in range it drops that one entry, out of range `s[i]` is
      `undefined` and nothing is dropped. */
  lemma {:induction false} FilterOutIsRemoveAt<T>(s: seq<T>, i: int)
    requires Distinct(s)
    ensures FilterOut(s, Lookup(s, i)) == RemoveAt(s, i)
    decreases |s|
  {
    if 0 <= i < |s| {
      DistinctTail(s);
      if i == 0 {
        FilterOutAbsent(s[1..], s[0]);
      } else {
        assert s[i] == s[1..][i - 1];
        FilterOutIsRemoveAt(s[1..], i - 1);
        RemoveAtTail(s, i);
      }
    } else {
      FilterOutNone(s);
    }
  }

  /** Filtering out `undefined` keeps everything. */
  lemma {:induction false} FilterOutNone<T>(s: seq<T>)
    ensures FilterOut(s, None) == s
    decreases |s|
  {
    if |s| > 0 {
      FilterOutNone(s[1..]);
      assert s == [s[0]] + s[1..];
    }
  }

  /** `s.map(item => p(item) ? f(item) : item)`: every entry matching `p` is updated. */
  function MapWhere<T>(s: seq<T>, p: T -> bool, f: T -> T): (r: seq<T>)
    ensures |r| == |s|
    ensures forall k :: 0 <= k < |s| && p(s[k]) ==> r[k] == f(s[k])
    ensures forall k :: 0 <= k < |s| && !p(s[k]) ==> r[k] == s[k]
    decreases |s|
  {
    if |s| == 0 then []
    else [if p(s[0]) then f(s[0]) else s[0]] + MapWhere(s[1..], p, f)
  }

  /** `s.filter(p)`: the entries satisfying `p`, in their original order. */
  function Filter<T>(s: seq<T>, p: T -> bool): (r: seq<T>)
    ensures |r| <= |s|
    ensures forall k :: 0 <= k < |r| ==> p(r[k])
    ensures forall k :: 0 <= k < |r| ==> r[k] in s
    ensures forall k :: 0 <= k < |s| && p(s[k]) ==> s[k] in r
    decreases |s|
  {
    if |s| == 0 then []
    else (if p(s[0]) then [s[0]] else []) + Filter(s[1..], p)
  }

  /** Filtering distributes over concatenation: the kept entries stay in order. */
  lemma {:induction false} FilterAppend<T>(a: seq<T>, b: seq<T>, p: T -> bool)
    ensures Filter(a + b, p) == Filter(a, p) + Filter(b, p)
    decreases |a|
  {
    if |a| == 0 {
      assert a + b == b;
    } else {
      assert (a + b)[1..] == a[1..] + b;
      FilterAppend(a[1..], b, p);
    }
  }

  /** A list whose every entry passes the filter comes back unchanged. */
  lemma {:induction false} FilterKeepsAll<T>(s: seq<T>, p: T -> bool)
    requires forall k :: 0 <= k < |s| ==> p(s[k])
    ensures Filter(s, p) == s
    decreases |s|
  {
    if |s| > 0 {
      FilterKeepsAll(s[1..], p);
      assert s == [s[0]] + s[1..];
    }
  }

  /** When exactly the entry at `i` fails the filter, filtering is removal
      at `i`. */
  lemma {:induction false} FilterDropsOne<T>(s: seq<T>, i: int, p: T -> bool)
    requires 0 <= i < |s| && !p(s[i])
    requires forall k :: 0 <= k < |s| && k != i ==> p(s[k])
    ensures Filter(s, p) == RemoveAt(s, i)
    decreases |s|
  {
    var rest := s[1..];
    assert forall k :: 0 <= k < |rest| ==> rest[k] == s[k + 1];
    if i == 0 {
      FilterKeepsAll(rest, p);
    } else {
      FilterDropsOne(rest, i - 1, p);
      RemoveAtTail(s, i);
    }
  }

  /** `s.findIndex(p)`: the index of the first entry matching `p`, if any. */
  function FirstIndex<T>(s: seq<T>, p: T -> bool): (r: Option<nat>)
    ensures r.Some? ==> r.value < |s| && p(s[r.value])
    ensures r.Some? ==> forall j :: 0 <= j < r.value ==> !p(s[j])
    ensures r.None? ==> forall j :: 0 <= j < |s| ==> !p(s[j])
    decreases |s|
  {
    if |s| == 0 then None
    else if p(s[0]) then Some(0)
    else match FirstIndex(s[1..], p)
      case None => None
      case Some(k) => Some(k + 1)
  }

  /** `s.find(p)`: the first entry matching `p`, or `undefined`. */
  function Find<T>(s: seq<T>, p: T -> bool): (r: Option<T>)
    ensures r.Some? <==> exists k :: 0 <= k < |s| && p(s[k])
    ensures r.Some? ==> exists k :: 0 <= k < |s| && s[k] == r.value && p(s[k]) && forall j :: 0 <= j < k ==> !p(s[j])
  {
    match FirstIndex(s, p)
    case None => None
    case Some(k) => Some(s[k])
  }

  /** Appending an entry never changes what `find` returns when the list
      already holds a match; otherwise it finds the new entry if that matches. */
  lemma FindAppend<T>(s: seq<T>, x: T, p: T -> bool)
    ensures Find(s, p).Some? ==> Find(s + [x], p) == Find(s, p)
    ensures Find(s, p).None? ==> Find(s + [x], p) == if p(x) then Some(x) else None
  {
    var t := s + [x];
    assert forall k :: 0 <= k < |s| ==> t[k] == s[k];
    match FirstIndex(s, p)
    case Some(i) =>
      var j := FirstIndex(t, p).value;
      assert !(j < i) && !(i < j);
    case None =>
      assert t[|s|] == x;
  }
}
