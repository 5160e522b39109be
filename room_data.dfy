/**
 * The coordinator's `room_data` dictionary and the "current room" selection
 * of `BeaconCoordinator._async_update_data`.
 *
 * A Python dict keeps its keys in insertion order: assigning to a key that is
 * already present keeps its position, a new key goes to the end, and `del`
 * closes the gap. The dict is therefore modelled as a sequence of
 * (room, rssi) entries whose keys are distinct.
 */
module RoomData {
  import opened Wrappers

  type Room = string

  /** One item of `room_data.items()`: a room key and the raw RSSI stored for it. */
  type Entry = (Room, int)

  function Keys(s: seq<Entry>): set<Room> {
    if s == [] then {} else {s[0].0} + Keys(s[1..])
  }

  /** No key occurs twice, as in a dict. */
  predicate DistinctKeys(s: seq<Entry>) {
    s == [] || (s[0].0 !in Keys(s[1..]) && DistinctKeys(s[1..]))
  }

  lemma {:induction false} KeysAt(s: seq<Entry>, i: nat)
    requires i < |s|
    ensures s[i].0 in Keys(s)
  {
    if i > 0 { KeysAt(s[1..], i - 1); }
  }

  /** Position of key `k`: the first entry carrying it. */
  function IndexOf(s: seq<Entry>, k: Room): (p: nat)
    requires k in Keys(s)
    ensures p < |s| && s[p].0 == k
    ensures forall j :: 0 <= j < p ==> s[j].0 != k
  {
    if s[0].0 == k then 0 else 1 + IndexOf(s[1..], k)
  }

  /** `room_data.get(k)`. */
  function Get(s: seq<Entry>, k: Room): (v: Option<int>)
    ensures v.None? <==> k !in Keys(s)
  {
    if s == [] then None
    else if s[0].0 == k then Some(s[0].1)
    else Get(s[1..], k)
  }

  /** `room_data[k] = v`: an existing key keeps its place, a new one is appended. */
  function Put(s: seq<Entry>, k: Room, v: int): (r: seq<Entry>)
    ensures Keys(r) == Keys(s) + {k}
    ensures k !in Keys(s) ==> r == s + [(k, v)]
    ensures k in Keys(s) ==> r == s[IndexOf(s, k) := (k, v)]
  {
    if s == [] then [(k, v)]
    else if s[0].0 == k then [(k, v)] + s[1..]
    else [s[0]] + Put(s[1..], k, v)
  }

  /** After `room_data[k] = v`, the key reads `v` and every other key reads as before. */
  lemma {:induction false} PutGet(s: seq<Entry>, k: Room, v: int)
    ensures Get(Put(s, k, v), k) == Some(v)
    ensures forall k' :: k' != k ==> Get(Put(s, k, v), k') == Get(s, k')
  {
    if s != [] && s[0].0 != k {
      PutGet(s[1..], k, v);
      assert Put(s, k, v)[1..] == Put(s[1..], k, v);
    }
  }

  lemma {:induction false} PutDistinct(s: seq<Entry>, k: Room, v: int)
    requires DistinctKeys(s)
    ensures DistinctKeys(Put(s, k, v))
  {
    if s != [] && s[0].0 != k {
      PutDistinct(s[1..], k, v);
      assert Put(s, k, v)[1..] == Put(s[1..], k, v);
    }
  }

  /** `del room_data[k]`, total here: a missing key leaves the entries alone. */
  function Remove(s: seq<Entry>, k: Room): (r: seq<Entry>)
    ensures k !in Keys(s) ==> r == s
    ensures k in Keys(s) ==> |r| == |s| - 1
    ensures k in Keys(s) ==> forall j :: 0 <= j < IndexOf(s, k) ==> r[j] == s[j]
    ensures k in Keys(s) ==> forall j :: IndexOf(s, k) <= j < |r| ==> r[j] == s[j + 1]
  {
    if s == [] then []
    else if s[0].0 == k then s[1..]
    else [s[0]] + Remove(s[1..], k)
  }

  /** Distinct keys, read by position. */
  lemma {:induction false} DistinctAt(s: seq<Entry>, i: nat, j: nat)
    requires DistinctKeys(s) && i < j < |s|
    ensures s[i].0 != s[j].0
  {
    if i == 0 {
      KeysAt(s[1..], j - 1);
    } else {
      DistinctAt(s[1..], i - 1, j - 1);
    }
  }

  /** After `del room_data[k]` on a dict, `k` is gone and nothing else changed. */
  lemma {:induction false} RemoveKeys(s: seq<Entry>, k: Room)
    requires DistinctKeys(s)
    ensures DistinctKeys(Remove(s, k))
    ensures Keys(Remove(s, k)) == Keys(s) - {k}
    ensures forall k' :: k' != k ==> Get(Remove(s, k), k') == Get(s, k')
  {
    if s != [] {
      RemoveKeys(s[1..], k);
      if s[0].0 != k {
        assert Remove(s, k)[1..] == Remove(s[1..], k);
      }
    }
  }

  predicate Descending(s: seq<Entry>) {
    forall i, j :: 0 <= i < j < |s| ==> s[i].1 >= s[j].1
  }

  /**
   * Entry `i` is the earliest entry with the greatest RSSI: no entry is
   * stronger, and every entry before it is strictly weaker.
   */
  ghost predicate IsFirstMax(s: seq<Entry>, i: int) {
    && 0 <= i < |s|
    && (forall j :: 0 <= j < |s| ==> s[j].1 <= s[i].1)
    && (forall j :: 0 <= j < i ==> s[j].1 < s[i].1)
  }

  /** Inserts `e` before the first entry of `t` that is not stronger than it. */
  function InsertDesc(e: Entry, t: seq<Entry>): (r: seq<Entry>)
    ensures multiset(r) == multiset(t) + multiset{e}
  {
    if t == [] || t[0].1 <= e.1 then [e] + t
    else
      assert t == [t[0]] + t[1..];
      [t[0]] + InsertDesc(e, t[1..])
  }

  /** Inserting an entry no stronger than `b` among entries no stronger than `b` keeps that bound. */
  lemma {:induction false} InsertDescBounded(e: Entry, t: seq<Entry>, b: int)
    requires e.1 <= b
    requires forall i :: 0 <= i < |t| ==> t[i].1 <= b
    ensures forall i :: 0 <= i < |InsertDesc(e, t)| ==> InsertDesc(e, t)[i].1 <= b
  {
    if t != [] && t[0].1 > e.1 {
      InsertDescBounded(e, t[1..], b);
      var r := InsertDesc(e, t);
      forall i | 1 <= i < |r|
        ensures r[i].1 <= b
      {
        assert r[i] == InsertDesc(e, t[1..])[i - 1];
      }
    }
  }

  /** An entry at least as strong as every entry of a descending sequence can head it. */
  lemma DescendingCons(x: Entry, rest: seq<Entry>)
    requires Descending(rest)
    requires forall i :: 0 <= i < |rest| ==> rest[i].1 <= x.1
    ensures Descending([x] + rest)
  {
    var r := [x] + rest;
    forall i, j | 0 <= i < j < |r|
      ensures r[i].1 >= r[j].1
    {
      assert r[j] == rest[j - 1];
      if i > 0 {
        assert r[i] == rest[i - 1];
      }
    }
  }

  lemma {:induction false} InsertDescDescending(e: Entry, t: seq<Entry>)
    requires Descending(t)
    ensures Descending(InsertDesc(e, t))
  {
    if t == [] || t[0].1 <= e.1 {
      DescendingCons(e, t);
    } else {
      var rest := InsertDesc(e, t[1..]);
      InsertDescDescending(e, t[1..]);
      InsertDescBounded(e, t[1..], t[0].1);
      DescendingCons(t[0], rest);
    }
  }

  /**
   * `sorted(room_data.items(), key=lambda item: item[1], reverse=True)`:
   * Python's sort is stable also when reversed, so entries of equal RSSI keep
   * their insertion order. Built by inserting each entry in front of the
   * later entries whose RSSI is not greater.
   */
  function SortedByRssiDesc(s: seq<Entry>): (r: seq<Entry>)
    ensures multiset(r) == multiset(s)
    ensures |r| == |s|
  {
    if s == [] then []
    else
      assert s == [s[0]] + s[1..];
      assert multiset(s) == multiset(s[1..]) + multiset{s[0]};
      InsertDesc(s[0], SortedByRssiDesc(s[1..]))
  }

  /** The sort orders the entries by descending RSSI. */
  lemma {:induction false} SortedDescending(s: seq<Entry>)
    ensures Descending(SortedByRssiDesc(s))
  {
    if s != [] {
      SortedDescending(s[1..]);
      InsertDescDescending(s[0], SortedByRssiDesc(s[1..]));
    }
  }

  /** A left-to-right scan that keeps the first of the strongest entries. */
  ghost function FirstMaxIndex(s: seq<Entry>): (i: nat)
    requires s != []
    ensures IsFirstMax(s, i)
  {
    if |s| == 1 then 0
    else
      var m := FirstMaxIndex(s[1..]) + 1;
      assert forall j :: 1 <= j < |s| ==> s[j] == s[1..][j - 1];
      if s[m].1 > s[0].1 then m else 0
  }

  /** The head of the sorted entries is the earliest entry of greatest RSSI. */
  lemma {:induction false} SortedHead(s: seq<Entry>)
    requires s != []
    ensures SortedByRssiDesc(s)[0] == s[FirstMaxIndex(s)]
  {
    if |s| > 1 {
      SortedHead(s[1..]);
    }
  }

  lemma FirstMaxUnique(s: seq<Entry>, i: int, j: int)
    requires IsFirstMax(s, i) && IsFirstMax(s, j)
    ensures i == j
  {
    assert s[i].1 <= s[j].1 && s[j].1 <= s[i].1;
  }

  /**
   * `_async_update_data`: no room when `room_data` is empty, otherwise the
   * first key of the RSSI-descending sort.
   */
  function SelectRoom(s: seq<Entry>): (r: Option<Room>)
    ensures r.None? <==> s == []
    ensures r.Some? ==> r.value == s[FirstMaxIndex(s)].0
  {
    if s == [] then None
    else
      SortedHead(s);
      Some(SortedByRssiDesc(s)[0].0)
  }

  /** With distinct keys the selected room is determined by its position. */
  lemma SelectRoomAt(s: seq<Entry>, i: int)
    requires IsFirstMax(s, i)
    ensures SelectRoom(s) == Some(s[i].0)
  {
    FirstMaxUnique(s, i, FirstMaxIndex(s));
  }

  /** A reading stronger than every other room's makes its room current. */
  lemma {:induction false} SelectAfterPut(s: seq<Entry>, k: Room, v: int)
    requires DistinctKeys(s)
    requires forall i :: 0 <= i < |s| && s[i].0 != k ==> s[i].1 < v
    ensures SelectRoom(Put(s, k, v)) == Some(k)
  {
    var r := Put(s, k, v);
    PutDistinct(s, k, v);
    var p := if k in Keys(s) then IndexOf(s, k) else |s|;
    assert r[p] == (k, v);
    forall j | 0 <= j < |r| && j != p
      ensures r[j].1 < v
    {
      assert r[j] == s[j];
      if k !in Keys(s) {
        KeysAt(s, j);
      } else if j < p {
        DistinctAt(s, j, p);
      } else {
        DistinctAt(s, p, j);
      }
    }
    assert IsFirstMax(r, p);
    SelectRoomAt(r, p);
  }

  /** Forgetting a room other than the current one keeps the current room. */
  lemma {:induction false} SelectAfterRemove(s: seq<Entry>, k: Room, w: Room)
    requires DistinctKeys(s)
    requires SelectRoom(s) == Some(w) && k != w
    ensures SelectRoom(Remove(s, k)) == Some(w)
  {
    if k in Keys(s) {
      var i := FirstMaxIndex(s);
      var p := IndexOf(s, k);
      var r := Remove(s, k);
      assert p != i;
      var i' := if i < p then i else i - 1;
      assert r[i'] == s[i];
      forall j | 0 <= j < |r|
        ensures r[j].1 <= r[i'].1 && (j < i' ==> r[j].1 < r[i'].1)
      {
        if j < p { assert r[j] == s[j]; } else { assert r[j] == s[j + 1]; }
      }
      assert IsFirstMax(r, i');
      SelectRoomAt(r, i');
    }
  }

  /** A removed room can never be the current one. */
  lemma RemovedNotSelected(s: seq<Entry>, k: Room)
    requires DistinctKeys(s)
    ensures SelectRoom(Remove(s, k)) != Some(k)
  {
    var r := Remove(s, k);
    RemoveKeys(s, k);
    if r != [] {
      var i := FirstMaxIndex(r);
      SelectRoomAt(r, i);
      KeysAt(r, i);
    }
  }

  /**
   * Equal strongest readings go to the room heard first: of two rooms with
   * the greatest RSSI, the later one is never selected, and the earliest one is.
   */
  lemma TieGoesToFirstInserted(s: seq<Entry>, i: int, j: int)
    requires DistinctKeys(s)
    requires 0 <= i < j < |s| && s[i].1 == s[j].1
    requires forall k :: 0 <= k < |s| ==> s[k].1 <= s[j].1
    ensures SelectRoom(s) != Some(s[j].0)
    ensures (forall k :: 0 <= k < i ==> s[k].1 < s[i].1) ==> SelectRoom(s) == Some(s[i].0)
  {
    var m := FirstMaxIndex(s);
    assert m <= i;
    DistinctAt(s, m, j);
    if forall k :: 0 <= k < i ==> s[k].1 < s[i].1 {
      SelectRoomAt(s, i);
    }
  }
}
