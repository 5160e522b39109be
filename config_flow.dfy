/**
 * `custom_components/format_ble_tracker/config_flow.py`: the user, add-device
 * and combine-devices steps, and the id grammar of `const.py`.
 *
 * Dictionaries from the forms are records whose absent keys are `None`.
 * A Python `KeyError` becomes the result `KeyError`.
 */
module ConfigFlow {
  import opened Wrappers
  import Topics
  import opened DeviceTracker

  // ---------------------------------------------------------------------
  // `str.strip()` and `str.upper()`

  /** Python's `str.isspace()`. No whitespace character can occur in an id. */
  predicate IsSpace(c: char): (b: bool)
    ensures b ==> !IsHexDigit(c) && !IsLowerAscii(c) && c != ':' && c != '-'
  {
    c in {' ', '\t', '\n', '\r', '\U{B}', '\U{C}', '\U{1C}', '\U{1D}', '\U{1E}', '\U{1F}',
          '\U{85}', '\U{A0}', '\U{1680}', '\U{2000}', '\U{2001}', '\U{2002}', '\U{2003}',
          '\U{2004}', '\U{2005}', '\U{2006}', '\U{2007}', '\U{2008}', '\U{2009}', '\U{200A}',
          '\U{2028}', '\U{2029}', '\U{202F}', '\U{205F}', '\U{3000}'}
  }

  function StripLeading(s: string): (r: string)
    ensures |r| <= |s| && r == s[|s| - |r|..]
    ensures forall i :: 0 <= i < |s| - |r| ==> IsSpace(s[i])
    ensures r != [] ==> !IsSpace(r[0])
  {
    if s != [] && IsSpace(s[0]) then StripLeading(s[1..]) else s
  }

  function StripTrailing(s: string): (r: string)
    ensures |r| <= |s| && r == s[..|r|]
    ensures forall i :: |r| <= i < |s| ==> IsSpace(s[i])
    ensures r != [] ==> !IsSpace(r[|r| - 1])
  {
    if s != [] && IsSpace(s[|s| - 1]) then StripTrailing(s[..|s| - 1]) else s
  }

  /** `str.strip()`: drops the leading and trailing whitespace. */
  function Strip(s: string): (r: string)
    ensures r != [] ==> !IsSpace(r[0]) && !IsSpace(r[|r| - 1])
  {
    var t := StripLeading(s);
    var r := StripTrailing(t);
    assert r != [] ==> r[0] == t[0];
    r
  }

  predicate IsLowerAscii(c: char) {
    'a' <= c <= 'z'
  }

  /**
   * `str.upper()` on one character: ASCII letters and the ligature U+FB00,
   * whose upper case is the two letters "FF". Other characters are kept.
   */
  function UpperChar(c: char): (r: string)
    ensures 1 <= |r| <= 2 && forall i :: 0 <= i < |r| ==> !IsLowerAscii(r[i])
    ensures IsHexDigit(c) || c == ':' || c == '-' ==> r == [c]
    ensures 'a' <= c <= 'f' ==> |r| == 1 && IsHexDigit(r[0])
  {
    if 'a' <= c <= 'z' then [(c as int - 32) as char]
    else if c == '\U{FB00}' then "FF"
    else [c]
  }

  /** `str.upper()`: no lower-case ASCII letter is left, and no character is lost. */
  function Upper(s: string): (r: string)
    ensures |s| <= |r| <= 2 * |s|
    ensures forall i :: 0 <= i < |r| ==> !IsLowerAscii(r[i])
  {
    if s == [] then [] else UpperChar(s[0]) + Upper(s[1..])
  }

  /** The id as the add-device step reads it: `user_input[MAC].strip().upper()`. */
  function Normalize(s: string): (r: string)
    ensures forall i :: 0 <= i < |r| ==> !IsLowerAscii(r[i])
  {
    Upper(Strip(s))
  }

  // ---------------------------------------------------------------------
  // `MAC_REGEX` and `UUID_REGEX`

  /** `[0-9A-F]`. */
  predicate IsHexDigit(c: char) {
    '0' <= c <= '9' || 'A' <= c <= 'F'
  }

  /** One single-character item of a regular expression: `[0-9A-F]` or a literal. */
  datatype Atom = Hex | Lit(c: char)

  predicate AtomMatches(a: Atom, c: char) {
    match a
    case Hex => IsHexDigit(c)
    case Lit(l) => c == l
  }

  /** `p{n}`: the pattern `p` written `n` times. */
  function Repeat(p: seq<Atom>, n: nat): (r: seq<Atom>)
    ensures |r| == n * |p|
  {
    if n == 0 then [] else p + Repeat(p, n - 1)
  }

  /** `^([0-9A-F]{2}[:]){5}([0-9A-F]{2})$` */
  const MacPattern: seq<Atom> := Repeat([Hex, Hex, Lit(':')], 5) + [Hex, Hex]

  /** `^[0-9A-F]{8}-[0-9A-F]{4}-[0-9A-F]{4}-[0-9A-F]{4}-[0-9A-F]{12}$` */
  const UuidPattern: seq<Atom> :=
    Repeat([Hex], 8) + [Lit('-')] + Repeat([Hex], 4) + [Lit('-')] + Repeat([Hex], 4)
    + [Lit('-')] + Repeat([Hex], 4) + [Lit('-')] + Repeat([Hex], 12)

  /** The pattern matches the whole of `s`, one atom per character. */
  predicate FullMatch(p: seq<Atom>, s: string) {
    |p| == |s| && forall i :: 0 <= i < |s| ==> AtomMatches(p[i], s[i])
  }

  /**
   * `re.match` of a pattern anchored by `^` and `$`: Python's `$` also
   * matches just before a final newline.
   */
  predicate ReMatch(p: seq<Atom>, s: string): (b: bool)
    ensures b ==> |s| == |p| || |s| == |p| + 1
  {
    FullMatch(p, s) || (s != [] && s[|s| - 1] == '\n' && FullMatch(p, s[..|s| - 1]))
  }

  /** The add-device step accepts `id` as a beacon id. */
  predicate IsBeaconId(id: string): (b: bool)
    ensures b ==> |id| == 17 || |id| == 18 || |id| == 36 || |id| == 37
  {
    ReMatch(MacPattern, id) || ReMatch(UuidPattern, id)
  }

  /** Position `j` of copy `k` of `p` in `p{n}` is `p[j]`. */
  lemma {:induction false} RepeatAt(p: seq<Atom>, n: nat, k: nat, j: nat)
    requires k < n && j < |p|
    ensures k * |p| + j < n * |p| && Repeat(p, n)[k * |p| + j] == p[j]
  {
    if k > 0 {
      RepeatAt(p, n - 1, k - 1, j);
      assert k * |p| + j == (k - 1) * |p| + j + |p|;
    }
  }

  /** The MAC form, position by position: colons at every third place, hex digits elsewhere. */
  lemma MacPatternShape(s: string)
    ensures FullMatch(MacPattern, s) <==>
      |s| == 17 && forall i :: 0 <= i < 17 ==> if i % 3 == 2 then s[i] == ':' else IsHexDigit(s[i])
  {
    var group := [Hex, Hex, Lit(':')];
    forall i | 0 <= i < 17
      ensures MacPattern[i] == if i % 3 == 2 then Lit(':') else Hex
    {
      if i < 15 {
        RepeatAt(group, 5, i / 3, i % 3);
      }
    }
  }

  /** The dash positions of the UUID form. */
  predicate IsUuidDash(i: int) {
    i == 8 || i == 13 || i == 18 || i == 23
  }

  /** `a{n}` for a single item `a` is `n` copies of `a`. */
  lemma {:induction false} RepeatOne(a: Atom, n: nat)
    ensures forall i :: 0 <= i < n ==> Repeat([a], n)[i] == a
  {
    forall i | 0 <= i < n
      ensures Repeat([a], n)[i] == a
    {
      RepeatAt([a], n, i, 0);
    }
  }

  lemma UuidPatternAt(i: nat)
    requires i < 36
    ensures UuidPattern[i] == if IsUuidDash(i) then Lit('-') else Hex
  {
    var dash := [Lit('-')];
    var h4 := Repeat([Hex], 4);
    var p1 := Repeat([Hex], 8) + dash;
    var p3 := p1 + h4 + dash;
    var p5 := p3 + h4 + dash;
    var p7 := p5 + h4 + dash;
    var tail := Repeat([Hex], 12);
    assert UuidPattern == p7 + tail;
    if i < 9 {
      RepeatOne(Hex, 8);
      assert UuidPattern[i] == p1[i];
    } else if i < 14 {
      RepeatOne(Hex, 4);
      assert UuidPattern[i] == p3[i];
    } else if i < 19 {
      RepeatOne(Hex, 4);
      assert UuidPattern[i] == p5[i];
    } else if i < 24 {
      RepeatOne(Hex, 4);
      assert UuidPattern[i] == p7[i];
    } else {
      RepeatOne(Hex, 12);
      assert UuidPattern[i] == tail[i - 24];
    }
  }

  /** The UUID form, position by position: dashes at 8, 13, 18 and 23, hex digits elsewhere. */
  lemma UuidPatternShape(s: string)
    ensures FullMatch(UuidPattern, s) <==>
      |s| == 36 && forall i :: 0 <= i < 36 ==> if IsUuidDash(i) then s[i] == '-' else IsHexDigit(s[i])
  {
    forall i | 0 <= i < 36
      ensures UuidPattern[i] == if IsUuidDash(i) then Lit('-') else Hex
    {
      UuidPatternAt(i);
    }
  }

  lemma {:induction false} UpperAppend(a: string, b: string)
    ensures Upper(a + b) == Upper(a) + Upper(b)
  {
    if a != [] {
      UpperAppend(a[1..], b);
      assert (a + b)[0] == a[0] && (a + b)[1..] == a[1..] + b;
    } else {
      assert a + b == b;
    }
  }

  /** `upper()` maps a character that is not whitespace to characters that are not. */
  lemma UpperCharNotSpace(c: char)
    requires !IsSpace(c)
    ensures UpperChar(c) != [] && forall i :: 0 <= i < |UpperChar(c)| ==> !IsSpace(UpperChar(c)[i])
  {
  }

  /** `upper()` of a string that is already upper case changes nothing. */
  lemma {:induction false} UpperIdempotent(s: string)
    ensures Upper(Upper(s)) == Upper(s)
  {
    if s != [] {
      UpperIdempotent(s[1..]);
      UpperAppend(UpperChar(s[0]), Upper(s[1..]));
      var u := UpperChar(s[0]);
      assert Upper(u) == u by {
        if |u| == 1 {
          assert Upper(u) == UpperChar(u[0]) + Upper([]);
        } else {
          assert u == "FF" && u[1..] == "F";
        }
      }
    }
  }

  /** `strip()` leaves alone a string with no whitespace at either end. */
  lemma StripUnchanged(s: string)
    requires s != [] ==> !IsSpace(s[0]) && !IsSpace(s[|s| - 1])
    ensures Strip(s) == s
  {
  }

  /** An upper-cased stripped string still starts and ends with a character that is not whitespace. */
  lemma UpperKeepsEdges(t: string)
    requires t != [] ==> !IsSpace(t[0]) && !IsSpace(t[|t| - 1])
    ensures Upper(t) != [] ==> !IsSpace(Upper(t)[0]) && !IsSpace(Upper(t)[|Upper(t)| - 1])
  {
    if t != [] {
      UpperCharNotSpace(t[0]);
      UpperCharNotSpace(t[|t| - 1]);
      assert t == t[..|t| - 1] + [t[|t| - 1]];
      UpperAppend(t[..|t| - 1], [t[|t| - 1]]);
      assert Upper([t[|t| - 1]]) == UpperChar(t[|t| - 1]) + Upper([]);
    }
  }

  /** A normalised id has no whitespace at either end. */
  lemma NormalizedEdges(s: string)
    ensures Normalize(s) != [] ==>
      !IsSpace(Normalize(s)[0]) && !IsSpace(Normalize(s)[|Normalize(s)| - 1])
  {
    UpperKeepsEdges(Strip(s));
  }

  /** Normalising twice is normalising once. */
  lemma NormalizeIdempotent(s: string)
    ensures Normalize(Normalize(s)) == Normalize(s)
  {
    var u := Normalize(s);
    NormalizedEdges(s);
    StripUnchanged(u);
    UpperIdempotent(Strip(s));
  }

  /**
   * A normalised id never ends in a newline, so `$` can only match at its
   * very end: `re.match` accepts it exactly when the whole id fits the pattern.
   */
  lemma NormalizedReMatch(p: seq<Atom>, s: string)
    ensures ReMatch(p, Normalize(s)) <==> FullMatch(p, Normalize(s))
  {
    NormalizedEdges(s);
  }

  /** An id that matches either pattern in full holds no `/`. */
  lemma FullMatchNoSeparator(id: string)
    requires FullMatch(MacPattern, id) || FullMatch(UuidPattern, id)
    ensures Topics.Separator !in id
  {
    MacPatternShape(id);
    UuidPatternShape(id);
    forall i | 0 <= i < |id|
      ensures id[i] != Topics.Separator
    {
    }
  }

  // ---------------------------------------------------------------------
  // The flow steps

  const ActionAddDevice: string := "add_device"

  /** The keys of the forms' `user_input`; `None` marks a key the dictionary lacks. */
  datatype UserInput = UserInput(
    action: Option<string>,
    mac: Option<string>,
    name: Option<string>,
    mergeLogic: Option<MergeLogic>,
    entities: Option<seq<string>>)

  datatype InputKey = NameKey | MergeLogicKey

  datatype EntryData =
    | BeaconEntry(mac: string, name: string)
    | MergedEntry(name: string, logic: MergeLogic, mergeIds: seq<string>)

  datatype FlowResult =
    | ShowForm(stepId: string)
    | Abort(reason: string)
    | CreateEntry(title: string, data: EntryData)
    | KeyError(key: InputKey)

  /**
   * `async_step_add_device`; `configured` holds the unique ids of the
   * entries that already exist.
   */
  function StepAddDevice(input: Option<UserInput>, configured: set<string>): (r: FlowResult)
    ensures (input.None? || input.value.mac.None?) <==> r == ShowForm("add_device")
    ensures r == Abort("not_id") <==>
      input.Some? && input.value.mac.Some? && !IsBeaconId(Normalize(input.value.mac.value))
    ensures r == Abort("already_configured") <==>
      input.Some? && input.value.mac.Some? && IsBeaconId(Normalize(input.value.mac.value))
      && Normalize(input.value.mac.value) in configured
    ensures r.CreateEntry? <==>
      input.Some? && input.value.mac.Some? && IsBeaconId(Normalize(input.value.mac.value))
      && Normalize(input.value.mac.value) !in configured
    ensures !r.KeyError?
    ensures r.CreateEntry? ==>
      && input.Some? && input.value.mac.Some?
      && r.data == BeaconEntry(Normalize(input.value.mac.value), r.title)
      && IsBeaconId(r.data.mac) && r.data.mac !in configured
      && r.title == (if input.value.name.Some? then input.value.name.value else r.data.mac)
  {
    if input.None? || input.value.mac.None? then ShowForm("add_device")
    else
      var mac := Normalize(input.value.mac.value);
      if !IsBeaconId(mac) then Abort("not_id")
      else if mac in configured then Abort("already_configured")
      else
        var givenName := if input.value.name.Some? then input.value.name.value else mac;
        CreateEntry(givenName, BeaconEntry(mac, givenName))
  }

  /** `async_step_combine_devices`. */
  function StepCombineDevices(input: Option<UserInput>): (r: FlowResult)
    ensures (input.None? || input.value.entities.None?) <==> r == ShowForm("combine_devices")
    ensures r == Abort("less_than_two_children") <==>
      input.Some? && input.value.entities.Some? && |input.value.entities.value| < 2
    ensures r.CreateEntry? <==>
      && input.Some? && input.value.entities.Some? && |input.value.entities.value| >= 2
      && input.value.name.Some? && input.value.mergeLogic.Some?
    ensures r == KeyError(NameKey) <==>
      && input.Some? && input.value.entities.Some? && |input.value.entities.value| >= 2
      && input.value.name.None?
    ensures r == KeyError(MergeLogicKey) <==>
      && input.Some? && input.value.entities.Some? && |input.value.entities.value| >= 2
      && input.value.name.Some? && input.value.mergeLogic.None?
    ensures r.CreateEntry? ==>
      && r.title == input.value.name.value
      && r.data == MergedEntry(input.value.name.value, input.value.mergeLogic.value, input.value.entities.value)
  {
    if input.None? || input.value.entities.None? then ShowForm("combine_devices")
    else
      var entities := input.value.entities.value;
      if |entities| < 2 then Abort("less_than_two_children")
      else if input.value.name.None? then KeyError(NameKey)
      else if input.value.mergeLogic.None? then KeyError(MergeLogicKey)
      else
        var givenName := input.value.name.value;
        CreateEntry(givenName, MergedEntry(givenName, input.value.mergeLogic.value, entities))
  }

  /** `async_step_user`: show the menu, or hand the input to the chosen step. */
  function StepUser(input: Option<UserInput>, configured: set<string>): (r: FlowResult)
    ensures (input.None? || input.value.action.None?) ==> r == ShowForm("user")
    ensures input.Some? && input.value.action == Some(ActionAddDevice) ==>
      r == StepAddDevice(input, configured)
    ensures input.Some? && input.value.action.Some? && input.value.action != Some(ActionAddDevice) ==>
      r == StepCombineDevices(input)
  {
    if input.None? || input.value.action.None? then ShowForm("user")
    else if input.value.action.value == ActionAddDevice then StepAddDevice(input, configured)
    else StepCombineDevices(input)
  }

  /**
   * The id of a created beacon entry is in normal form, matches a pattern in
   * full, and holds no `/`: the topic on which a receiver reports it from
   * any room gives that room back.
   */
  lemma CreatedBeaconId(input: Option<UserInput>, configured: set<string>, room: string)
    requires StepAddDevice(input, configured).CreateEntry?
    requires Topics.Separator !in room
    ensures var id := StepAddDevice(input, configured).data.mac;
      && Normalize(id) == id
      && (FullMatch(MacPattern, id) || FullMatch(UuidPattern, id))
      && Topics.RoomOfTopic(Topics.RoomTopic(id, room)) == Some(room)
  {
    var raw := input.value.mac.value;
    var id := Normalize(raw);
    NormalizeIdempotent(raw);
    NormalizedReMatch(MacPattern, raw);
    NormalizedReMatch(UuidPattern, raw);
    FullMatchNoSeparator(id);
    Topics.RoomOfRoomTopic(id, room);
  }

  /** On a string without U+FB00, `upper()` maps each character to one character in place. */
  lemma {:induction false} UpperInPlace(s: string)
    requires '\U{FB00}' !in s
    ensures |Upper(s)| == |s|
    ensures forall i :: 0 <= i < |s| ==> Upper(s)[i] == UpperChar(s[i])[0]
  {
    if s != [] {
      UpperInPlace(s[1..]);
      assert forall i :: 1 <= i < |s| ==> s[i] == s[1..][i - 1];
    }
  }

  /**
   * A MAC typed in lower or mixed case is accepted: `upper()` runs before the
   * match, so the stored id is its upper-case form.
   */
  lemma {:induction false} TypedMacAccepted(typed: string, configured: set<string>)
    requires |typed| == 17
    requires forall i :: 0 <= i < 17 ==>
      if i % 3 == 2 then typed[i] == ':' else IsHexDigit(typed[i]) || 'a' <= typed[i] <= 'f'
    requires Upper(typed) !in configured
    ensures Normalize(typed) == Upper(typed)
    ensures StepAddDevice(Some(UserInput(None, Some(typed), None, None, None)), configured)
      == CreateEntry(Upper(typed), BeaconEntry(Upper(typed), Upper(typed)))
  {
    StripUnchanged(typed);
    UpperInPlace(typed);
    var id := Upper(typed);
    MacPatternShape(id);
    forall i | 0 <= i < 17
      ensures if i % 3 == 2 then id[i] == ':' else IsHexDigit(id[i])
    {
    }
    assert FullMatch(MacPattern, id);
  }

  /** `"aa:bb:cc:dd:ee:ff"` typed into the add-device form creates an entry. */
  lemma CreatedFromLowerCaseMac()
    ensures StepAddDevice(Some(UserInput(None, Some("aa:bb:cc:dd:ee:ff"), None, None, None)), {}).CreateEntry?
  {
    var typed := "aa:bb:cc:dd:ee:ff";
    forall i | 0 <= i < 17
      ensures if i % 3 == 2 then typed[i] == ':' else IsHexDigit(typed[i]) || 'a' <= typed[i] <= 'f'
    {
    }
    TypedMacAccepted(typed, {});
  }
}
