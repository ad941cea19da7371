/**
 * popuset.cpp: the `<input/output>:<name/id>:<channels>` device argument.
 * `parseDevice` cuts the argument in place at its first two colons and
 * fills in a new `audio_device` from the pieces and from what PortAudio
 * reports about the device; `new_strdup` copies a C string.
 *
 * PortAudio's device table is a parameter: `Pa_GetDeviceInfo(i)` is
 * `devices[i]`, and NULL outside the table.
 */
module Device {
  import opened Wrappers
  import opened Machine
  import opened CLib
  import opened Util
  import Audio

  datatype Direction = Input | Output

  /** What `Pa_GetDeviceInfo` reports: the name and the channel maxima. */
  datatype DeviceInfo = DeviceInfo(name: seq<char>, maxInputChannels: int, maxOutputChannels: int)

  /**
   * Why `parseDevice` hands back no device: `NoDeviceInfo` is the crash on
   * the NULL that `Pa_GetDeviceInfo` returns for an unknown index, the
   * others are the messages it prints before returning NULL.
   */
  datatype Complaint =
    | NoDeviceInfo        // `Pa_GetDeviceInfo` returns NULL, which the code dereferences: no return
    | InvalidDirection
    | AmbiguousDirection
    | InvalidChannels
    | TooManyChannels
    | NoChannels

  /** The outcome of parsing an argument: the device's fields, or why there is none. */
  datatype Choice =
    | Chosen(id: int, name: seq<char>, numChannels: nat, direction: Direction)
    | Refused(why: Complaint)

  /** The pieces of an argument: direction text, name or id, channel count text. */
  datatype Fields = Fields(inout: Option<seq<char>>, nameid: seq<char>, channels: Option<seq<char>>)

  function Names(devices: seq<DeviceInfo>): (r: seq<seq<char>>)
    ensures |r| == |devices| && forall i :: 0 <= i < |devices| ==> r[i] == devices[i].name
  {
    seq(|devices|, i requires 0 <= i < |devices| => devices[i].name)
  }

  function Min(a: int, b: int): int { if a < b then a else b }

  /** The maximum channel count in a direction. */
  function MaxChannels(info: DeviceInfo, d: Direction): int
  {
    if d == Input then info.maxInputChannels else info.maxOutputChannels
  }

  // --------------------------------------------------------- the pieces

  /**
   * The argument `s` (a C string) cut at its first colon, and the rest at
   * its next colon. Without a colon the whole string is the name or id.
   */
  function Split(s: seq<char>): Fields
  {
    match Find(s, 0, ':')
    case None => Fields(None, s, None)
    case Some(p) =>
      var rest := s[p + 1..];
      match Find(rest, 0, ':')
      case None => Fields(Some(s[..p]), rest, None)
      case Some(q) => Fields(Some(s[..p]), rest[..q], Some(rest[q + 1..]))
  }

  /** The pieces put back together with the colons between them. */
  function Join(f: Fields): seq<char>
  {
    match f.inout
    case None => f.nameid
    case Some(io) => io + [':'] + f.nameid + (match f.channels case None => [] case Some(c) => [':'] + c)
  }

  predicate NoColon(s: seq<char>) { forall k :: 0 <= k < |s| ==> s[k] != ':' }

  /** Joining the pieces gives the argument back. */
  lemma SplitJoin(s: seq<char>)
    ensures Join(Split(s)) == s
  {
    match Find(s, 0, ':')
    case None =>
    case Some(p) =>
      var rest := s[p + 1..];
      Rejoin(s, p);
      match Find(rest, 0, ':')
      case None =>
        assert Join(Split(s)) == s[..p] + [':'] + rest + [];
      case Some(q) =>
        Rejoin(rest, q);
        JoinTwo(s[..p], rest[..q], rest[q + 1..]);
  }

  /** Cutting at a colon and putting the colon back gives the string back. */
  lemma Rejoin(s: seq<char>, p: nat)
    requires p < |s| && s[p] == ':'
    ensures s[..p] + [':'] + s[p + 1..] == s
  {
  }

  lemma JoinTwo(a: seq<char>, b: seq<char>, c: seq<char>)
    ensures a + [':'] + b + ([':'] + c) == a + [':'] + (b + [':'] + c)
  {
  }

  /**
   * The cuts are at the first colons: no piece before a cut holds a colon,
   * and a missing piece means there was no colon left to cut at.
   */
  lemma SplitAtFirstColons(s: seq<char>)
    ensures var f := Split(s);
      && (f.inout.None? ==> f.channels.None? && NoColon(s))
      && (f.inout.Some? ==> NoColon(f.inout.value) && NoColon(f.nameid))
  {
    match Find(s, 0, ':')
    case None =>
    case Some(p) =>
      var rest := s[p + 1..];
      assert forall k :: 0 <= k < p ==> s[..p][k] == s[k];
      match Find(rest, 0, ':')
      case None =>
      case Some(q) =>
        assert forall k :: 0 <= k < q ==> rest[..q][k] == rest[k];
  }

  /** With no colon the whole argument is the name or id, with no direction or channel count. */
  lemma NoColonNoSpecifiers(s: seq<char>)
    ensures Split(s).inout.None? <==> NoColon(s)
    ensures NoColon(s) ==> Split(s) == Fields(None, s, None)
  {
    SplitAtFirstColons(s);
  }

  // ------------------------------------------------------- the decision

  /** The device index: the number itself, or the first device whose name contains `lookupName`. */
  function LookUp(nameid: seq<char>, lookupName: seq<char>, devices: seq<DeviceInfo>): int
  {
    if IsNumber(nameid) then Atoi(nameid) else Audio.GetDeviceId(Names(devices), lookupName)
  }

  /** The direction: from the specifier, or guessed from which side has channels. */
  function ChooseDirection(inout: Option<seq<char>>, info: DeviceInfo): Option<Direction>
  {
    match inout
    case Some(io) =>
      if MatchBeginnings(io, "input") then Some(Input)
      else if MatchBeginnings(io, "output") then Some(Output)
      else None
    case None =>
      if info.maxOutputChannels == 0 && info.maxInputChannels != 0 then Some(Input)
      else if info.maxInputChannels == 0 && info.maxOutputChannels != 0 then Some(Output)
      else None
  }

  /** A channel count, or the reason there is none. */
  datatype Count = Count(n: nat) | NoCount(why: Complaint)

  /**
   * The channel count, stored in an `unsigned short`: the number given,
   * which must not exceed `max`, or `min(2, max)`, which must not be 0.
   */
  function ChooseChannels(channels: Option<seq<char>>, max: int): Count
  {
    match channels
    case Some(c) =>
      if !IsNumber(c) then NoCount(InvalidChannels)
      else
        var n := Wrap(Atoi(c), U16);
        if n > max then NoCount(TooManyChannels) else Count(n)
    case None =>
      var n := Wrap(Min(2, max), U16);
      if n == 0 then NoCount(NoChannels) else Count(n)
  }

  /**
   * The rest of `parseDevice` once the pieces are known; `lookupName` is the
   * string handed to `getDeviceId` when the name or id is not a number.
   */
  function Decide(f: Fields, lookupName: seq<char>, devices: seq<DeviceInfo>): Choice
  {
    Settle(f, LookUp(f.nameid, lookupName, devices), lookupName, devices)
  }

  /** The part of `Decide` after the lookup has produced the index `id`. */
  function Settle(f: Fields, id: int, lookupName: seq<char>, devices: seq<DeviceInfo>): Choice
  {
    if !(0 <= id < |devices|) then Refused(NoDeviceInfo)
    else
      var info := devices[id];
      match ChooseDirection(f.inout, info)
      case None => Refused(if f.inout.Some? then InvalidDirection else AmbiguousDirection)
      case Some(d) =>
        match ChooseChannels(f.channels, MaxChannels(info, d))
        case NoCount(why) => Refused(why)
        case Count(n) => Chosen(id, if IsNumber(f.nameid) then info.name else lookupName, n, d)
  }

  /**
   * `parseDevice` as written: a name is looked up under `optarg`, which
   * after the cut holds only the text before the first colon.
   */
  function ParseAsWritten(s: seq<char>, devices: seq<DeviceInfo>): Choice
  {
    var f := Split(s);
    Decide(f, if f.inout.Some? then f.inout.value else s, devices)
  }

  /** `parseDevice` as intended: a name is looked up under the name piece. */
  function ParseIntended(s: seq<char>, devices: seq<DeviceInfo>): Choice
  {
    var f := Split(s);
    Decide(f, f.nameid, devices)
  }

  // ---------------------------------------------------------- properties

  /** A chosen device is the one looked up, in the direction and with the count chosen for it. */
  lemma DecideChosen(f: Fields, lookupName: seq<char>, devices: seq<DeviceInfo>)
    ensures var r := Decide(f, lookupName, devices);
      && (r.Chosen? ==> r.id == LookUp(f.nameid, lookupName, devices) && 0 <= r.id < |devices|)
      && (r.Chosen? ==> ChooseDirection(f.inout, devices[r.id]) == Some(r.direction))
      && (r.Chosen? ==> ChooseChannels(f.channels, MaxChannels(devices[r.id], r.direction)) == Count(r.numChannels))
      && (r.Chosen? ==> r.name == if IsNumber(f.nameid) then devices[r.id].name else lookupName)
      && (!(0 <= LookUp(f.nameid, lookupName, devices) < |devices|) ==> r == Refused(NoDeviceInfo))
  {
  }

  /** The crash happens exactly when the index looked up has no device. */
  lemma CrashIffUnknownIndex(s: seq<char>, devices: seq<DeviceInfo>)
    ensures var f := Split(s);
      ParseAsWritten(s, devices) == Refused(NoDeviceInfo)
      <==> !(0 <= LookUp(f.nameid, if f.inout.Some? then f.inout.value else s, devices) < |devices|)
  {
    var f := Split(s);
    var id := LookUp(f.nameid, if f.inout.Some? then f.inout.value else s, devices);
    if 0 <= id < |devices| {
      var d := ChooseDirection(f.inout, devices[id]);
      if d.Some? {
        var c := ChooseChannels(f.channels, MaxChannels(devices[id], d.value));
        assert c.NoCount? ==> c.why != NoDeviceInfo;
      }
    }
  }

  /** A numeric name or id is the device index, and the device keeps its own name. */
  lemma NumericIdSelectsDevice(s: seq<char>, devices: seq<DeviceInfo>)
    requires IsNumber(Split(s).nameid)
    ensures var r := ParseIntended(s, devices);
      && (r.Chosen? ==> r.id == Atoi(Split(s).nameid) && 0 <= r.id < |devices| && r.name == devices[r.id].name)
      && (!(0 <= Atoi(Split(s).nameid) < |devices|) ==> r == Refused(NoDeviceInfo))
      && r == ParseAsWritten(s, devices)
  {
    var f := Split(s);
    DecideChosen(f, f.nameid, devices);
    DecideIgnoresLookupName(f, f.nameid, if f.inout.Some? then f.inout.value else s, devices);
  }

  /** A numeric name or id is never looked up, so the string it would be looked up under is irrelevant. */
  lemma DecideIgnoresLookupName(f: Fields, a: seq<char>, b: seq<char>, devices: seq<DeviceInfo>)
    requires IsNumber(f.nameid)
    ensures Decide(f, a, devices) == Decide(f, b, devices)
  {
    var id := Atoi(f.nameid);
    assert LookUp(f.nameid, a, devices) == id && LookUp(f.nameid, b, devices) == id;
    SettleIgnoresLookupName(f, id, a, b, devices);
  }

  lemma SettleIgnoresLookupName(f: Fields, id: int, a: seq<char>, b: seq<char>, devices: seq<DeviceInfo>)
    requires IsNumber(f.nameid)
    ensures Settle(f, id, a, devices) == Settle(f, id, b, devices)
  {
  }

  /** A name is looked up as the first device whose name contains it, ignoring case. */
  lemma NameSelectsFirstMatch(s: seq<char>, devices: seq<DeviceInfo>)
    requires !IsNumber(Split(s).nameid)
    ensures var f := Split(s); var r := ParseIntended(s, devices);
      && (r.Chosen? ==> 0 <= r.id < |devices| && r.name == f.nameid
                        && ContainsIgnoringCase(devices[r.id].name, f.nameid)
                        && forall j :: 0 <= j < r.id ==> !ContainsIgnoringCase(devices[j].name, f.nameid))
      && ((forall j :: 0 <= j < |devices| ==> !ContainsIgnoringCase(devices[j].name, f.nameid))
          ==> r == Refused(NoDeviceInfo))
  {
    var f := Split(s);
    DecideChosen(f, f.nameid, devices);
  }

  /**
   * An explicit direction is input when it matches "input", else output
   * when it matches "output", else refused. Without one, the direction is
   * input exactly when the device has input channels and no output
   * channels, output the other way round, and refused otherwise.
   */
  lemma DirectionRule(inout: Option<seq<char>>, info: DeviceInfo)
    ensures var r := ChooseDirection(inout, info);
      && (inout.Some? ==> (r == Some(Input) <==> MatchBeginnings(inout.value, "input")))
      && (inout.Some? ==> (r == Some(Output) <==> !MatchBeginnings(inout.value, "input") && MatchBeginnings(inout.value, "output")))
      && (inout.None? ==> (r == Some(Input) <==> info.maxOutputChannels == 0 && info.maxInputChannels != 0))
      && (inout.None? ==> (r == Some(Output) <==> info.maxInputChannels == 0 && info.maxOutputChannels != 0))
  {
  }

  /**
   * The prefixes of "input" choose input, and so does an empty specifier
   * and, the match being symmetric, "inputs"; "o" and "out" choose output.
   */
  lemma DirectionAbbreviations(info: DeviceInfo)
    ensures ChooseDirection(Some("in"), info) == Some(Input)
    ensures ChooseDirection(Some(""), info) == Some(Input)
    ensures ChooseDirection(Some("inputs"), info) == Some(Input)
    ensures ChooseDirection(Some("o"), info) == Some(Output)
    ensures ChooseDirection(Some("out"), info) == Some(Output)
    ensures ChooseDirection(Some("x"), info).None?
  {
    MatchBeginningsMeansPrefix("in", "input");
    MatchBeginningsMeansPrefix("inputs", "input");
    MatchBeginningsMeansPrefix("o", "input");
    MatchBeginningsMeansPrefix("o", "output");
    MatchBeginningsMeansPrefix("out", "input");
    MatchBeginningsMeansPrefix("out", "output");
    MatchBeginningsMeansPrefix("x", "input");
    MatchBeginningsMeansPrefix("x", "output");
  }

  /**
   * The channel count never exceeds a non-negative maximum. An explicit
   * count is the number given, in 16 bits; the default is `min(2, max)`,
   * and a default of 0 is refused.
   */
  lemma ChannelCount(channels: Option<seq<char>>, max: int)
    ensures var r := ChooseChannels(channels, max);
      && (r.Count? && max >= 0 ==> r.n <= max)
      && (channels.Some? ==> (r.Count? <==> IsNumber(channels.value) && Wrap(Atoi(channels.value), U16) <= max))
      && (channels.Some? && r.Count? ==> r.n == Wrap(Atoi(channels.value), U16))
      && (channels.None? && max >= 0 ==> (r.Count? <==> max > 0))
      && (channels.None? && max >= 0 && r.Count? ==> r.n == Min(2, max))
  {
  }

  /** An empty channel count passes `is_number` and asks for 0 channels, which is never too many. */
  lemma EmptyChannelCount(max: int)
    requires max >= 0
    ensures ChooseChannels(Some(""), max) == Count(0)
  {
    assert Atoi("") == 0 by {
      assert SkipSpaces("") == [];
      assert LeadingDigits("") == [];
    }
  }

  /** A concrete device table: one output-only device called "Speakers". */
  function SpeakersOnly(): seq<DeviceInfo> { [DeviceInfo("Speakers", 0, 2)] }

  lemma SpeakersNotOutput()
    ensures !ContainsIgnoringCase("Speakers", "output")
  {
    var hay: seq<char> := "Speakers";
    forall k | 0 <= k <= |hay| - 6
      ensures !MatchesAt(hay, "output", k)
    {
      assert Lowered(hay[k..k + 6])[0] == ToLower(hay[k]);
      assert Lowered("output")[0] == 'o';
    }
  }

  lemma SplitOutputSpeakers()
    ensures Split("output:Speakers") == Fields(Some("output"), "Speakers", None)
  {
    var s: seq<char> := "output:Speakers";
    assert Find(s, 0, ':') == Some(6) by {
      assert s[6] == ':';
      assert forall k :: 0 <= k < 6 ==> s[k] != ':';
    }
    var rest := s[7..];
    assert rest == "Speakers";
    assert Find(rest, 0, ':').None?;
    assert Split(s) == Fields(Some(s[..6]), rest, None);
    assert s[..6] == "output";
  }

  /**
   * "output:Speakers" names a device that exists, but as written the name
   * looked up is "output", which matches no device, so the code goes on to
   * dereference the NULL that `Pa_GetDeviceInfo(-1)` returns.
   */
  lemma NameLookupUsesDirection()
    ensures ParseAsWritten("output:Speakers", SpeakersOnly()) == Refused(NoDeviceInfo)
  {
    SplitOutputSpeakers();
    assert !IsNumber("Speakers") by { assert !IsDigit('S') && !IsSpace('S'); }
    assert Names(SpeakersOnly()) == ["Speakers"];
    SpeakersNotOutput();
    assert Audio.GetDeviceId(["Speakers"], "output") == -1;
  }

  /** Looked up under the name piece, the same argument chooses the speakers, for output, in stereo. */
  lemma NameLookupIntended()
    ensures ParseIntended("output:Speakers", SpeakersOnly()) == Chosen(0, "Speakers", 2, Output)
  {
    SplitOutputSpeakers();
    var f := Fields(Some("output"), "Speakers", None);
    SpeakersLookedUp();
    OutputChoosesOutput(SpeakersOnly()[0]);
    assert ChooseChannels(None, 2) == Count(2);
    assert Decide(f, f.nameid, SpeakersOnly()) == Chosen(0, "Speakers", 2, Output);
  }

  lemma SpeakersLookedUp()
    ensures LookUp("Speakers", "Speakers", SpeakersOnly()) == 0
  {
    assert !IsNumber("Speakers") by { assert !IsDigit('S') && !IsSpace('S'); }
    assert Names(SpeakersOnly()) == ["Speakers"];
    assert MatchesAt("Speakers", "Speakers", 0) by { assert "Speakers"[0..8] == "Speakers"; }
  }

  lemma OutputChoosesOutput(info: DeviceInfo)
    ensures ChooseDirection(Some("output"), info) == Some(Output)
  {
    assert !MatchBeginnings("output", "input");
    assert MatchBeginnings("output", "output") by { MatchBeginningsLaws("output", "output"); }
  }

  // ---------------------------------------------------------- new_strdup

  /**
   * `new_strdup(input)` as written: a new array of `strlen(input)`
   * characters holding the string, without the terminating NUL.
   */
  method NewStrdup(input: seq<char>) returns (data: array<char>)
    requires Terminated(input, 0)
    ensures fresh(data) && data[..] == CString(input, 0)
  {
    var len := |CString(input, 0)|;
    data := new char[len];
    forall i | 0 <= i < len {
      data[i] := input[i];
    }
  }

  /**
   * The copy holds no NUL at all, so reading it back as a C string (as
   * `getDeviceId` does with the name) runs past its end.
   */
  lemma StrdupCopyUnterminated(input: seq<char>)
    requires Terminated(input, 0)
    ensures !Terminated(CString(input, 0), 0)
  {
  }

  /** `new_strdup` as intended: one more character, for the terminating NUL. */
  method NewStrdupTerminated(input: seq<char>) returns (data: array<char>)
    requires Terminated(input, 0)
    ensures fresh(data) && data[..] == CString(input, 0) + [NUL]
  {
    var len := |CString(input, 0)|;
    data := new char[len + 1];
    forall i | 0 <= i < len {
      data[i] := input[i];
    }
    data[len] := NUL;
  }

  /** The terminated copy reads back as the string it copied. */
  lemma StrdupTerminatedRoundTrip(input: seq<char>)
    requires Terminated(input, 0)
    ensures Terminated(CString(input, 0) + [NUL], 0)
    ensures CString(CString(input, 0) + [NUL], 0) == CString(input, 0)
  {
    var d := CString(input, 0);
    CStringIs(d + [NUL], 0, |d|);
    assert (d + [NUL])[0..|d|] == d;
  }

  // -------------------------------------------------------- the device

  /** `audio_device`, with the fields `parseDevice` fills in. */
  class AudioDevice {
    var id: int
    var name: seq<char>
    var numChannels: nat
    var direction: Direction

    /** `new audio_device()`: every field zero, which is the direction `INPUT`. */
    constructor ()
      ensures id == 0 && name == [] && numChannels == 0 && direction == Input
    {
      id, name, numChannels, direction := 0, [], 0, Input;
    }
  }

  /** `strstr(s + from, ":")` on the C string at `from`: the first colon before its NUL. */
  function StrColon(s: seq<char>, from: nat): (r: Option<nat>)
    requires Terminated(s, from)
    ensures r.Some? ==> from <= r.value < from + |CString(s, from)| && s[r.value] == ':'
    ensures r.Some? ==> r.value - from == Find(CString(s, from), 0, ':').value
    ensures r.None? <==> Find(CString(s, from), 0, ':').None?
  {
    match Find(CString(s, from), 0, ':')
    case None => None
    case Some(k) => Some(from + k)
  }

  /** The buffer after the cut: a NUL over each of the first two colons of the argument. */
  function CutBuffer(buf: seq<char>): seq<char>
    requires Terminated(buf, 0)
  {
    var s := CString(buf, 0);
    match Find(s, 0, ':')
    case None => buf
    case Some(p) =>
      match Find(s[p + 1..], 0, ':')
      case None => buf[p := NUL]
      case Some(q) => buf[p := NUL][p + 1 + q := NUL]
  }

  /** Where the pieces start once the buffer is cut: the name or id, and the channel count. */
  function CutPositions(buf: seq<char>): (bool, nat, Option<nat>)
    requires Terminated(buf, 0)
  {
    var s := CString(buf, 0);
    match Find(s, 0, ':')
    case None => (false, 0, None)
    case Some(p) =>
      match Find(s[p + 1..], 0, ':')
      case None => (true, p + 1, None)
      case Some(q) => (true, p + 1, Some(p + q + 2))
  }

  /** A C string read where `n` characters without NUL are followed by one. */
  lemma CStringIs(s: seq<char>, from: nat, n: nat)
    requires from + n < |s| && s[from + n] == NUL
    requires forall k :: from <= k < from + n ==> s[k] != NUL
    ensures Terminated(s, from) && CString(s, from) == s[from..from + n]
  {
    var e := Find(s, from, NUL);
    assert e.Some?;
    assert e.value == from + n;
  }

  /** A NUL over a colon at `p` of the C string at 0 ends it there and starts a new one after it. */
  lemma FirstCut(buf: seq<char>, p: nat)
    requires Terminated(buf, 0) && p < |CString(buf, 0)| && CString(buf, 0)[p] == ':'
    ensures var s := CString(buf, 0); var t := buf[p := NUL];
      && Terminated(t, 0) && CString(t, 0) == s[..p]
      && Terminated(t, p + 1) && CString(t, p + 1) == s[p + 1..]
  {
    var s := CString(buf, 0);
    var t := buf[p := NUL];
    CStringIs(t, 0, p);
    assert t[0..p] == s[..p];
    CStringIs(t, p + 1, |s| - p - 1);
    assert t[p + 1..|s|] == s[p + 1..];
  }

  /** A second NUL, over a colon at `p + 1 + q`, leaves the first string and cuts the second. */
  lemma SecondCut(buf: seq<char>, p: nat, q: nat)
    requires Terminated(buf, 0) && p < |CString(buf, 0)| && CString(buf, 0)[p] == ':'
    requires q < |CString(buf, 0)[p + 1..]| && CString(buf, 0)[p + 1..][q] == ':'
    ensures var s := CString(buf, 0); var rest := s[p + 1..]; var t := buf[p := NUL][p + 1 + q := NUL];
      && Terminated(t, 0) && CString(t, 0) == s[..p]
      && Terminated(t, p + 1) && CString(t, p + 1) == rest[..q]
      && Terminated(t, p + q + 2) && CString(t, p + q + 2) == rest[q + 1..]
  {
    SecondCutHead(buf, p, q);
    SecondCutMiddle(buf, p, q);
    SecondCutTail(buf, p, q);
  }

  lemma SecondCutHead(buf: seq<char>, p: nat, q: nat)
    requires Terminated(buf, 0) && p < |CString(buf, 0)| && CString(buf, 0)[p] == ':'
    requires q < |CString(buf, 0)[p + 1..]|
    ensures var t := buf[p := NUL][p + 1 + q := NUL]; Terminated(t, 0) && CString(t, 0) == CString(buf, 0)[..p]
  {
    var s := CString(buf, 0);
    var t := buf[p := NUL][p + 1 + q := NUL];
    assert forall k :: 0 <= k < p ==> t[k] == s[k];
    CStringIs(t, 0, p);
    assert t[0..p] == s[..p];
  }

  lemma SecondCutMiddle(buf: seq<char>, p: nat, q: nat)
    requires Terminated(buf, 0) && p < |CString(buf, 0)| && CString(buf, 0)[p] == ':'
    requires q < |CString(buf, 0)[p + 1..]|
    ensures var t := buf[p := NUL][p + 1 + q := NUL];
      Terminated(t, p + 1) && CString(t, p + 1) == CString(buf, 0)[p + 1..][..q]
  {
    var s := CString(buf, 0);
    var t := buf[p := NUL][p + 1 + q := NUL];
    assert forall k :: p + 1 <= k < p + 1 + q ==> t[k] == s[k];
    CStringIs(t, p + 1, q);
    assert t[p + 1..p + 1 + q] == s[p + 1..][..q];
  }

  lemma SecondCutTail(buf: seq<char>, p: nat, q: nat)
    requires Terminated(buf, 0) && p < |CString(buf, 0)| && CString(buf, 0)[p] == ':'
    requires q < |CString(buf, 0)[p + 1..]|
    ensures var t := buf[p := NUL][p + 1 + q := NUL];
      Terminated(t, p + q + 2) && CString(t, p + q + 2) == CString(buf, 0)[p + 1..][q + 1..]
  {
    var s := CString(buf, 0);
    var t := buf[p := NUL][p + 1 + q := NUL];
    assert forall k :: p + q + 2 <= k <= |s| ==> t[k] == buf[k];
    CStringIs(t, p + q + 2, |s| - p - q - 2);
    assert t[p + q + 2..|s|] == s[p + 1..][q + 1..];
  }

  /** After the cut, the C strings at the piece positions are the pieces of the argument. */
  lemma CutReads(buf: seq<char>)
    requires Terminated(buf, 0)
    ensures CutRead(buf)
  {
    var s := CString(buf, 0);
    match Find(s, 0, ':')
    case None =>
      assert CutBuffer(buf) == buf && CutPositions(buf) == (false, 0, None) && Split(s) == Fields(None, s, None);
    case Some(p) =>
      match Find(s[p + 1..], 0, ':')
      case None => CutReadsOne(buf, p);
      case Some(q) => CutReadsTwo(buf, p, q);
  }

  /** The C strings at the piece positions of the cut buffer are the pieces of the argument. */
  ghost predicate CutRead(buf: seq<char>)
    requires Terminated(buf, 0)
  {
    var t := CutBuffer(buf); var c := CutPositions(buf); var f := Split(CString(buf, 0));
    && c.0 == f.inout.Some? && (c.2.Some? <==> f.channels.Some?)
    && Terminated(t, 0) && CString(t, 0) == (if f.inout.Some? then f.inout.value else CString(buf, 0))
    && Terminated(t, c.1) && CString(t, c.1) == f.nameid
    && (c.2.Some? ==> Terminated(t, c.2.value) && CString(t, c.2.value) == f.channels.value)
  }

  lemma CutReadsOne(buf: seq<char>, p: nat)
    requires Terminated(buf, 0)
    requires Find(CString(buf, 0), 0, ':') == Some(p) && Find(CString(buf, 0)[p + 1..], 0, ':').None?
    ensures CutRead(buf)
  {
    var s := CString(buf, 0);
    FirstCut(buf, p);
    assert CutBuffer(buf) == buf[p := NUL];
    assert CutPositions(buf) == (true, p + 1, None);
    assert Split(s) == Fields(Some(s[..p]), s[p + 1..], None);
  }

  lemma CutReadsTwo(buf: seq<char>, p: nat, q: nat)
    requires Terminated(buf, 0)
    requires Find(CString(buf, 0), 0, ':') == Some(p) && Find(CString(buf, 0)[p + 1..], 0, ':') == Some(q)
    ensures CutRead(buf)
  {
    var s := CString(buf, 0);
    var rest := s[p + 1..];
    SecondCut(buf, p, q);
    var t := buf[p := NUL][p + 1 + q := NUL];
    assert CutBuffer(buf) == t;
    assert CutPositions(buf) == (true, p + 1, Some(p + q + 2));
    assert Split(s) == Fields(Some(s[..p]), rest[..q], Some(rest[q + 1..]));
  }

  /**
   * The cutting half of `parseDevice`: a NUL over the first colon, and over
   * the next colon after it.
   */
  method Cut(optarg: array<char>) returns (hasInout: bool, nameidAt: nat, channelsAt: Option<nat>)
    requires Terminated(optarg[..], 0)
    modifies optarg
    ensures (hasInout, nameidAt, channelsAt) == CutPositions(old(optarg[..]))
    ensures optarg[..] == CutBuffer(old(optarg[..]))
  {
    ghost var buf := optarg[..];
    ghost var s := CString(buf, 0);
    var colon := StrColon(optarg[..], 0);
    if colon.None? {
      return false, 0, None;
    }
    var p := colon.value;
    optarg[p] := NUL;
    FirstCut(buf, p);
    assert optarg[..] == buf[p := NUL];
    hasInout, nameidAt, channelsAt := true, p + 1, None;
    var second := StrColon(optarg[..], nameidAt);
    if second.Some? {
      var q := second.value - nameidAt;
      optarg[second.value] := NUL;
      assert optarg[..] == buf[p := NUL][p + 1 + q := NUL];
      channelsAt := Some(second.value + 1);
    }
  }

  /**
   * `parseDevice(optarg)`: cuts `optarg` in place, then either fills in a
   * new device, or prints a complaint and returns NULL, or dereferences the
   * NULL device info of an unknown index (popuset.cpp:59 and 66-67) and
   * crashes. `crashed` reports the last case, in which the source never
   * returns; `device` is then null only because the method must end. The
   * buffer ends as `CutBuffer` says, and the outcome is the one
   * `ParseAsWritten` chooses from the original argument. The names are
   * taken as the strings `new_strdup` was given (see `SetIdentity`).
   */
  method ParseDevice(optarg: array<char>, devices: seq<DeviceInfo>) returns (device: AudioDevice?, crashed: bool)
    requires Terminated(optarg[..], 0)
    modifies optarg
    ensures optarg[..] == CutBuffer(old(optarg[..]))
    ensures var r := ParseAsWritten(CString(old(optarg[..]), 0), devices);
      && (crashed <==> r == Refused(NoDeviceInfo))
      && (device == null <==> r.Refused?)
      && (device != null ==> fresh(device) && device.id == r.id && device.name == r.name
                             && device.numChannels == r.numChannels && device.direction == r.direction)
  {
    ghost var buf := optarg[..];
    ghost var f := Split(CString(buf, 0));
    var hasInout, nameidAt, channelsAt := Cut(optarg);
    CutReads(buf);
    var nameid := CString(optarg[..], nameidAt);
    var optargText := CString(optarg[..], 0);
    device := new AudioDevice();
    var ok := SetIdentity(device, nameid, optargText, devices);
    CrashIffUnknownIndex(CString(buf, 0), devices);
    if !ok {
      return null, true;
    }
    crashed := false;
    var info := devices[device.id];
    ok := SetDirection(device, if hasInout then Some(optargText) else None, info);
    if !ok {
      return null, false;
    }
    var channels := if channelsAt.Some? then Some(CString(optarg[..], channelsAt.value)) else None;
    ok := SetChannels(device, channels, info.maxInputChannels, info.maxOutputChannels);
    if !ok {
      device := null;
    }
  }

  /**
   * The name or id: a number is the index and the device's own name is
   * copied; otherwise `optarg` is the name and is looked up. `ok` is false
   * when `Pa_GetDeviceInfo` returns NULL for the index. The code stores
   * `new_strdup` copies, which have no NUL (popuset.cpp:23-28), and
   * `getDeviceId` reads its copy as a C string past the allocation; here
   * the name stored and looked up is the string `new_strdup` was given.
   */
  method SetIdentity(device: AudioDevice, nameid: seq<char>, optargText: seq<char>, devices: seq<DeviceInfo>)
    returns (ok: bool)
    modifies device
    ensures device.id == LookUp(nameid, optargText, devices)
    ensures ok <==> 0 <= device.id < |devices|
    ensures ok ==> device.name == if IsNumber(nameid) then devices[device.id].name else optargText
    ensures device.numChannels == old(device.numChannels) && device.direction == old(device.direction)
  {
    if IsNumber(nameid) {
      device.id := Atoi(nameid);
      if !(0 <= device.id < |devices|) {
        return false;
      }
      device.name := devices[device.id].name;
    } else {
      device.name := optargText;
      device.id := Audio.GetDeviceId(Names(devices), device.name);
    }
    ok := device.id != -1;
  }

  /** The direction, from the specifier or guessed from the channel maxima; `ok` is false when refused. */
  method SetDirection(device: AudioDevice, inout: Option<seq<char>>, info: DeviceInfo) returns (ok: bool)
    modifies device
    ensures ok <==> ChooseDirection(inout, info).Some?
    ensures ok ==> device.direction == ChooseDirection(inout, info).value
    ensures device.id == old(device.id) && device.name == old(device.name) && device.numChannels == old(device.numChannels)
  {
    var outchan := info.maxOutputChannels;
    var inchan := info.maxInputChannels;
    ok := true;
    if inout.Some? {
      if MatchBeginnings(inout.value, "input") {
        device.direction := Input;
      } else if MatchBeginnings(inout.value, "output") {
        device.direction := Output;
      } else {
        ok := false;
      }
    } else {
      if outchan == 0 && inchan != 0 {
        device.direction := Input;
      } else if inchan == 0 && outchan != 0 {
        device.direction := Output;
      } else {
        ok := false;
      }
    }
  }

  /** The channel count for the chosen direction; `ok` is false when refused. */
  method SetChannels(device: AudioDevice, channels: Option<seq<char>>, inchan: int, outchan: int) returns (ok: bool)
    modifies device
    ensures var c := ChooseChannels(channels, if device.direction == Input then inchan else outchan);
      (ok <==> c.Count?) && (ok ==> device.numChannels == c.n)
    ensures device.id == old(device.id) && device.name == old(device.name) && device.direction == old(device.direction)
  {
    ok := true;
    if channels.Some? {
      if !IsNumber(channels.value) {
        return false;
      }
      device.numChannels := Wrap(Atoi(channels.value), U16);
      if device.direction == Input && device.numChannels > inchan {
        return false;
      }
      if device.direction == Output && device.numChannels > outchan {
        return false;
      }
    } else {
      if device.direction == Input {
        device.numChannels := Wrap(Min(2, inchan), U16);
      }
      if device.direction == Output {
        device.numChannels := Wrap(Min(2, outchan), U16);
      }
      if device.numChannels == 0 {
        return false;
      }
    }
  }
}
