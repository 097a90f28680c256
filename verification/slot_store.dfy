/** The merger's `files` dictionary: slot number to chosen path, kept in
    insertion order as a Python dict keeps it. */
module SlotStore {
  import opened Wrappers

  /** One dictionary item. The path is optional because the merge guards
      against a stored `None`, even though loading never stores one. */
  datatype Entry = Entry(key: int, path: Option<string>)

  /** The items in dict iteration order, which is first-insertion order. */
  type Store = seq<Entry>

  /** The only slot numbers the window has. */
  predicate ValidKey(k: int) {
    k == 1 || k == 2
  }

  /** The keys in iteration order. */
  function Keys(s: Store): (ks: seq<int>)
    ensures |ks| == |s|
    ensures forall i :: 0 <= i < |s| ==> ks[i] == s[i].key
  {
    if s == [] then [] else [s[0].key] + Keys(s[1..])
  }

  /** No key occurs twice, as in any dictionary. */
  predicate UniqueKeys(s: Store) {
    forall i, j :: 0 <= i < j < |s| ==> s[i].key != s[j].key
  }

  /** A dictionary whose keys are slot numbers. */
  predicate WellFormed(s: Store) {
    && UniqueKeys(s)
    && forall i :: 0 <= i < |s| ==> ValidKey(s[i].key)
  }

  /** Every stored path is present. */
  predicate AllPresent(s: Store) {
    forall i :: 0 <= i < |s| ==> s[i].path.Some?
  }

  /** The position of the first absent path. */
  function FirstMissing(s: Store): (i: nat)
    requires !AllPresent(s)
    ensures i < |s| && s[i].path.None?
    ensures forall j :: 0 <= j < i ==> s[j].path.Some?
  {
    if s[0].path.None? then 0 else 1 + FirstMissing(s[1..])
  }

  /** The stored paths in iteration order. */
  function Paths(s: Store): (ps: seq<string>)
    requires AllPresent(s)
    ensures |ps| == |s|
    ensures forall i :: 0 <= i < |s| ==> ps[i] == s[i].path.value
  {
    if s == [] then [] else [s[0].path.value] + Paths(s[1..])
  }

  /** `d[k] = v`: a new key goes to the end, an existing key keeps its place
      and only its value changes. */
  function Put(s: Store, k: int, v: Option<string>): (r: Store)
    ensures Keys(r) == if k in Keys(s) then Keys(s) else Keys(s) + [k]
    ensures |r| == if k in Keys(s) then |s| else |s| + 1
    ensures k !in Keys(s) ==> r == s + [Entry(k, v)]
    ensures UniqueKeys(s) && k in Keys(s) ==>
      forall i :: 0 <= i < |s| ==> r[i] == if s[i].key == k then Entry(k, v) else s[i]
  {
    if s == [] then [Entry(k, v)]
    else if s[0].key == k then [Entry(k, v)] + s[1..]
    else
      var t := Put(s[1..], k, v);
      var r := [s[0]] + t;
      assert r[1..] == t;
      assert Keys(s) == [s[0].key] + Keys(s[1..]);
      assert Keys(r) == [s[0].key] + Keys(t);
      assert k in Keys(s) <==> k in Keys(s[1..]);
      UniqueTail(s);
      r
  }

  /** Dropping the first item keeps the keys unique. */
  lemma UniqueTail(s: Store)
    requires s != []
    ensures UniqueKeys(s) ==> UniqueKeys(s[1..])
  {
  }

  /** Among any three slot numbers two are equal. */
  lemma ThreeSlotsClash(a: int, b: int, c: int)
    requires ValidKey(a) && ValidKey(b) && ValidKey(c)
    ensures a == b || a == c || b == c
  {
  }

  /** A well-formed store never holds more than the two slots. */
  lemma {:induction false} AtMostTwo(s: Store)
    requires WellFormed(s)
    ensures |s| <= 2
  {
    if |s| > 2 {
      ThreeSlotsClash(s[0].key, s[1].key, s[2].key);
    }
  }

  /** Storing never makes a key occur twice. */
  lemma {:induction false} PutUnique(s: Store, k: int, v: Option<string>)
    requires UniqueKeys(s)
    ensures UniqueKeys(Put(s, k, v))
  {
    var r := Put(s, k, v);
    forall i, j | 0 <= i < j < |r|
      ensures r[i].key != r[j].key
    {
      assert r[i].key == Keys(r)[i] && r[j].key == Keys(r)[j];
      if j < |s| {
        assert Keys(r)[i] == Keys(s)[i] && Keys(r)[j] == Keys(s)[j];
        assert s[i].key == Keys(s)[i] && s[j].key == Keys(s)[j];
      } else {
        assert k !in Keys(s) && Keys(r)[i] == Keys(s)[i];
      }
    }
  }

  /** Storing sets the one slot and leaves every other item as it was. */
  lemma {:induction false} PutMembers(s: Store, k: int, v: Option<string>)
    ensures Entry(k, v) in Put(s, k, v)
    ensures forall e :: e in s && e.key != k ==> e in Put(s, k, v)
    ensures forall e :: e in Put(s, k, v) && e.key != k ==> e in s
  {
    if s == [] {
    } else if s[0].key == k {
    } else {
      var t := Put(s[1..], k, v);
      assert Put(s, k, v) == [s[0]] + t;
      PutMembers(s[1..], k, v);
    }
  }

  /** Storing into a valid slot keeps the store well formed. */
  lemma {:induction false} PutWellFormed(s: Store, k: int, v: Option<string>)
    requires WellFormed(s) && ValidKey(k)
    ensures WellFormed(Put(s, k, v))
    ensures |Put(s, k, v)| <= 2
  {
    var r := Put(s, k, v);
    PutUnique(s, k, v);
    assert Keys(r) == if k in Keys(s) then Keys(s) else Keys(s) + [k];
    forall i | 0 <= i < |r|
      ensures ValidKey(r[i].key)
    {
      assert r[i].key == Keys(r)[i];
      if i < |s| {
        assert Keys(r)[i] == Keys(s)[i];
      }
    }
    AtMostTwo(r);
  }

  /** Storing twice into the same slot keeps only the later path, at the
      slot's original place. */
  lemma {:induction false} PutOverwrites(s: Store, k: int, v: Option<string>, w: Option<string>)
    ensures Put(Put(s, k, v), k, w) == Put(s, k, w)
  {
    if s != [] && s[0].key != k {
      var t := Put(s[1..], k, v);
      assert Put(s, k, v) == [s[0]] + t;
      assert ([s[0]] + t)[1..] == t;
      PutOverwrites(s[1..], k, v, w);
    }
  }

  /** Slot 2 stored, then slot 1, then slot 2 again: slot 2 stays first. */
  lemma PutKeepsFirstPlace(a: Option<string>, b: Option<string>, c: Option<string>)
    ensures Put(Put(Put([], 2, a), 1, b), 2, c) == [Entry(2, c), Entry(1, b)]
  {
    var s2 := Put(Put([], 2, a), 1, b);
    assert Put([], 2, a) == [Entry(2, a)];
    assert Keys([Entry(2, a)]) == [2];
    assert s2 == [Entry(2, a), Entry(1, b)];
    assert Keys(s2) == [2, 1];
  }
}
