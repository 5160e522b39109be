/**
 * MQTT topic strings of the integration: the subscription filter built in
 * `async_setup_entry` and the room key taken from an incoming topic in
 * `BeaconCoordinator.message_received`.
 */
module Topics {
  import opened Wrappers

  const RootTopic: string := "format_ble_tracker"
  const Separator: char := '/'

  /** Python's `topic.split("/")`: always at least one part, none holding a `/`. */
  function Split(s: string): (parts: seq<string>)
    ensures |parts| >= 1
    ensures forall i :: 0 <= i < |parts| ==> Separator !in parts[i]
  {
    if s == [] then [[]]
    else
      var rest := Split(s[1..]);
      if s[0] == Separator then [[]] + rest
      else [[s[0]] + rest[0]] + rest[1..]
  }

  /** Python's `"/".join(parts)`. */
  function Join(parts: seq<string>): string
    requires |parts| >= 1
  {
    if |parts| == 1 then parts[0] else parts[0] + [Separator] + Join(parts[1..])
  }

  /** Splitting and joining again gives back the topic. */
  lemma {:induction false} JoinSplit(s: string)
    ensures Join(Split(s)) == s
  {
    if s != [] {
      JoinSplit(s[1..]);
      var rest := Split(s[1..]);
      if s[0] == Separator {
        assert ([[]] + rest)[1..] == rest;
      } else {
        var parts := [[s[0]] + rest[0]] + rest[1..];
        if |rest| > 1 {
          assert parts[1..] == rest[1..];
          assert Join(rest) == rest[0] + [Separator] + Join(rest[1..]);
        }
      }
    }
  }

  lemma {:induction false} SplitNoSeparator(a: string)
    requires Separator !in a
    ensures Split(a) == [a]
  {
    if a != [] {
      SplitNoSeparator(a[1..]);
      assert [a[0]] + a[1..] == a;
    }
  }

  lemma {:induction false} SplitCons(a: string, b: string)
    requires Separator !in a
    ensures Split(a + [Separator] + b) == [a] + Split(b)
  {
    var s := a + [Separator] + b;
    if a == [] {
      assert s[1..] == b;
    } else {
      assert s[1..] == a[1..] + [Separator] + b;
      SplitCons(a[1..], b);
      assert [a[0]] + a[1..] == a;
    }
  }

  /** Joining parts that hold no `/` and splitting again gives back the parts. */
  lemma {:induction false} SplitJoin(parts: seq<string>)
    requires |parts| >= 1
    requires forall i :: 0 <= i < |parts| ==> Separator !in parts[i]
    ensures Split(Join(parts)) == parts
  {
    if |parts| == 1 {
      SplitNoSeparator(parts[0]);
    } else {
      SplitJoin(parts[1..]);
      SplitCons(parts[0], Join(parts[1..]));
      assert [parts[0]] + parts[1..] == parts;
    }
  }

  /** `msg.topic.split("/")[2]`; `None` stands for the IndexError of a topic with fewer than three levels. */
  function RoomOfTopic(topic: string): (room: Option<string>)
    ensures room.Some? ==> Separator !in room.value
    ensures room.Some? <==> |Split(topic)| >= 3
  {
    var parts := Split(topic);
    if |parts| >= 3 then Some(parts[2]) else None
  }

  /** `ROOT_TOPIC + "/" + mac + "/+"`, the filter the coordinator subscribes to. */
  function SubscriptionTopic(mac: string): string {
    RootTopic + [Separator] + mac + [Separator] + "+"
  }

  /** The topic on which the receiver in `room` reports beacon `mac`. */
  function RoomTopic(mac: string, room: string): string {
    Join([RootTopic, mac, room])
  }

  /**
   * MQTT matching of a filter whose only wildcard is the single-level `+`:
   * the same number of levels, each either `+` or equal.
   */
  predicate MatchesFilter(filter: string, topic: string) {
    var f, t := Split(filter), Split(topic);
    |f| == |t| && forall i :: 0 <= i < |f| ==> f[i] == "+" || f[i] == t[i]
  }

  lemma SubscriptionLevels(mac: string)
    requires Separator !in mac
    ensures Split(SubscriptionTopic(mac)) == [RootTopic, mac, "+"]
  {
    var parts := [RootTopic, mac, "+"];
    assert parts[1..] == [mac, "+"] && parts[1..][1..] == ["+"];
    assert Join(["+"]) == "+";
    assert Join([mac, "+"]) == mac + [Separator] + "+";
    assert SubscriptionTopic(mac) == Join(parts);
    SplitJoin([RootTopic, mac, "+"]);
  }

  /** The room key of a topic built from a beacon id and a room is that room. */
  lemma RoomOfRoomTopic(mac: string, room: string)
    requires Separator !in mac && Separator !in room
    ensures RoomOfTopic(RoomTopic(mac, room)) == Some(room)
  {
    SplitJoin([RootTopic, mac, room]);
  }

  /**
   * Every topic delivered for the subscription has a room level, so
   * `split("/")[2]` never fails on it, and the topic is the room topic of
   * that room.
   */
  lemma SubscribedTopicHasRoom(mac: string, topic: string)
    requires Separator !in mac && mac != "+"
    requires MatchesFilter(SubscriptionTopic(mac), topic)
    ensures RoomOfTopic(topic).Some?
    ensures topic == RoomTopic(mac, RoomOfTopic(topic).value)
  {
    SubscriptionLevels(mac);
    var t := Split(topic);
    assert t[0] == RootTopic && t[1] == mac;
    assert t == [RootTopic, mac, t[2]];
    JoinSplit(topic);
  }
}
