/**
 * c_receiver/config.c: the receiver's settings, read from the environment
 * with defaults, range-checked as 16-bit unsigned numbers, and the two
 * IPv6 addresses made from them. The environment is passed in as a map
 * from variable names to values.
 */
module Config {
  import opened Wrappers
  import opened Machine
  import opened CLib

  const ParseTempLen: nat := 128

  /** A C string's contents: no NUL inside. */
  predicate NoNul(s: seq<char>)
  {
    forall k :: 0 <= k < |s| ==> s[k] != NUL
  }

  /**
   * The `n` characters `strncpy(dst, src, n)` writes for the C string
   * `src`: as much of it as fits, then NULs up to `n`. No terminator is
   * written when `src` has `n` characters or more.
   */
  function Strncpy(src: seq<char>, n: nat): (r: seq<char>)
    ensures |r| == n
    ensures forall i :: 0 <= i < n ==> r[i] == if i < |src| then src[i] else NUL
  {
    if |src| >= n then src[..n] else src + seq(n - |src|, _ => NUL)
  }

  /** A string shorter than the buffer is read back from it intact. */
  lemma StrncpyRoundTrip(src: seq<char>, n: nat)
    requires NoNul(src) && |src| < n
    ensures Terminated(Strncpy(src, n), 0) && CString(Strncpy(src, n), 0) == src
  {
    var r := Strncpy(src, n);
    assert r[|src|] == NUL;
    var e := Find(r, 0, NUL).value;
    assert e == |src|;
    assert r[..|src|] == src;
  }

  /** A string as long as the buffer or longer fills it with no terminator. */
  lemma StrncpyUnterminated(src: seq<char>, n: nat)
    requires NoNul(src) && |src| >= n
    ensures !Terminated(Strncpy(src, n), 0)
  {
  }

  /** The value `getenv_default` copies: the variable's value when it is set, else the default. */
  function EnvOrDefault(env: map<seq<char>, seq<char>>, name: seq<char>, default: seq<char>): seq<char>
  {
    if name in env then env[name] else default
  }

  /**
   * `parse_uint16` on the buffer `getenv_default` filled: `atoi` of it,
   * rejected (the program exits with status 1) below 0 or above 65535.
   */
  function Uint16Setting(buffer: seq<char>): (r: Option<nat>)
    ensures r.Some? ==> r.value < U16 && r.value == Atoi(buffer)
    ensures r.None? <==> Atoi(buffer) < 0 || Atoi(buffer) >= U16
  {
    var num := Atoi(buffer);
    if num < 0 || num > 0xFFFF then None else Some(num)
  }

  /** Every 16-bit value written in decimal is accepted as itself. */
  lemma Uint16SettingReadsDecimal(n: nat)
    requires n < U16
    ensures Uint16Setting(Strncpy(Numeral(n, 10), ParseTempLen)) == Some(n)
  {
    var ds := Numeral(n, 10);
    assert n < Power(10, 5) by {
      assert Power(10, 5) == 100000 by {
        assert Power(10, 1) == 10 && Power(10, 2) == 100 && Power(10, 3) == 1000 && Power(10, 4) == 10000;
      }
    }
    NumeralLength(n, 10, 5);
    var pad := seq(ParseTempLen - |ds|, _ => NUL);
    assert Strncpy(ds, ParseTempLen) == ds + pad;
    AtoiNumeral(n, pad);
  }

  /** The defaults of `load_config`. */
  const DefaultGroup: seq<char> := "0"
  const DefaultChannel: seq<char> := "0"
  const DefaultSubchannel: seq<char> := "0"
  const DefaultAudioPort: seq<char> := "1554"
  const DefaultTimesyncPort: seq<char> := "1555"

  /** A default is what an unset variable parses to. */
  lemma DefaultsParse()
    ensures Uint16Setting(Strncpy(DefaultGroup, ParseTempLen)) == Some(0)
    ensures Uint16Setting(Strncpy(DefaultAudioPort, ParseTempLen)) == Some(1554)
    ensures Uint16Setting(Strncpy(DefaultTimesyncPort, ParseTempLen)) == Some(1555)
  {
    DefaultZero();
    DefaultAudioPortParses();
    DefaultTimesyncPortParses();
  }

  lemma DefaultZero()
    ensures Uint16Setting(Strncpy(DefaultGroup, ParseTempLen)) == Some(0)
  {
    Uint16SettingReadsDecimal(0);
    assert Numeral(0, 10) == "0";
  }

  lemma DefaultAudioPortParses()
    ensures Uint16Setting(Strncpy(DefaultAudioPort, ParseTempLen)) == Some(1554)
  {
    Uint16SettingReadsDecimal(1554);
    assert Numeral(1554, 10) == "1554";
  }

  lemma DefaultTimesyncPortParses()
    ensures Uint16Setting(Strncpy(DefaultTimesyncPort, ParseTempLen)) == Some(1555)
  {
    Uint16SettingReadsDecimal(1555);
    assert Numeral(1555, 10) == "1555";
  }

  /** `%x` of a 16-bit value: lower-case hex digits without leading zeros. */
  function Hex(n: nat): seq<char>
  {
    Numeral(n, 16)
  }

  /** The speaker-group address: a multicast address whose last group is the speaker group. */
  function SpeakerGroupAddr(group: nat): seq<char>
  {
    "ff12:5041::1337:" + Hex(group)
  }

  /** The speaker's own address: the group, channel and subchannel as its last three groups. */
  function SpeakerAddr(group: nat, channel: nat, subchannel: nat): seq<char>
  {
    "fd37:5041::" + Hex(group) + ":" + Hex(channel) + ":" + Hex(subchannel)
  }

  /** A group of an IPv6 address in text: one to four hex digits. */
  predicate IsGroup(s: seq<char>)
  {
    1 <= |s| <= 4 && forall k :: 0 <= k < |s| ==> IsHexDigit(s[k])
  }

  /** A 16-bit value is written as one address group, which reads back as the value. */
  lemma HexIsGroup(n: nat)
    requires n < U16
    ensures IsGroup(Hex(n)) && NumeralValue(Hex(n), 16) == n
    ensures forall k :: 0 <= k < |Hex(n)| ==> Hex(n)[k] != ':'
  {
    assert Power(16, 4) == U16 by {
      assert Power(16, 1) == 16 && Power(16, 2) == 256 && Power(16, 3) == 4096;
    }
    NumeralLength(n, 16, 4);
    NumeralRoundTrip(n, 16);
  }

  /** The addresses end in the groups of their settings, each of which reads back as the setting. */
  lemma AddressesCarrySettings(group: nat, channel: nat, subchannel: nat)
    requires group < U16 && channel < U16 && subchannel < U16
    ensures var a := SpeakerGroupAddr(group);
      a[..16] == "ff12:5041::1337:" && IsGroup(a[16..]) && NumeralValue(a[16..], 16) == group
    ensures var a := SpeakerAddr(group, channel, subchannel);
      var g, c := |Hex(group)|, |Hex(channel)|;
      && a[..11] == "fd37:5041::"
      && a[11..11 + g] == Hex(group) && a[11 + g] == ':'
      && a[12 + g..12 + g + c] == Hex(channel) && a[12 + g + c] == ':'
      && a[13 + g + c..] == Hex(subchannel)
  {
    GroupAddrCarries(group);
    SpeakerAddrCarries(group, channel, subchannel);
  }

  lemma GroupAddrCarries(group: nat)
    requires group < U16
    ensures var a := SpeakerGroupAddr(group);
      a[..16] == "ff12:5041::1337:" && IsGroup(a[16..]) && NumeralValue(a[16..], 16) == group
  {
    HexIsGroup(group);
    var a := SpeakerGroupAddr(group);
    assert a[16..] == Hex(group);
  }

  lemma SpeakerAddrCarries(group: nat, channel: nat, subchannel: nat)
    ensures var a := SpeakerAddr(group, channel, subchannel);
      var g, c := |Hex(group)|, |Hex(channel)|;
      && a[..11] == "fd37:5041::"
      && a[11..11 + g] == Hex(group) && a[11 + g] == ':'
      && a[12 + g..12 + g + c] == Hex(channel) && a[12 + g + c] == ':'
      && a[13 + g + c..] == Hex(subchannel)
  {
    var p, gs, cs, ss := "fd37:5041::", Hex(group), Hex(channel), Hex(subchannel);
    var a := SpeakerAddr(group, channel, subchannel);
    var g, c := |gs|, |cs|;
    assert a == p + gs + [':'] + cs + [':'] + ss;
    assert a[..11] == p;
    assert a[11..11 + g] == gs;
    assert a[12 + g..12 + g + c] == cs;
    assert a[13 + g + c..] == ss;
  }

  /** The fixed-size buffer `getenv_default` copies into. */
  class ParseTemp {
    var buffer: array<char>

    constructor ()
      ensures buffer.Length == ParseTempLen && fresh(buffer)
    {
      buffer := new char[ParseTempLen](_ => NUL);
    }

    /**
     * `getenv_default`: the variable's value, or the default when it is
     * not set, copied into the buffer as `strncpy` copies it.
     */
    method GetenvDefault(env: map<seq<char>, seq<char>>, name: seq<char>, default: seq<char>)
      requires buffer.Length == ParseTempLen
      modifies buffer
      ensures buffer[..] == Strncpy(EnvOrDefault(env, name, default), ParseTempLen)
    {
      var src := if name in env then env[name] else default;
      var copied := Strncpy(src, ParseTempLen);
      forall i | 0 <= i < ParseTempLen {
        buffer[i] := copied[i];
      }
    }

    /** `parse_uint16`: the setting, or `None` when the program exits. */
    method ParseUint16(env: map<seq<char>, seq<char>>, name: seq<char>, default: seq<char>) returns (r: Option<nat>)
      requires buffer.Length == ParseTempLen
      modifies buffer
      ensures r == Setting(env, name, default)
    {
      GetenvDefault(env, name, default);
      var num := Atoi(buffer[..]);
      if num < 0 || num > 0xFFFF {
        return None;
      }
      return Some(num);
    }
  }

  /** The receiver's settings. */
  class ReceiverConfig {
    var speakerGroup: nat
    var channel: nat
    var subchannel: nat
    var audioPort: nat
    var timesyncPort: nat
    var speakerGroupAddr: seq<char>
    var speakerAddr: seq<char>

    constructor ()
    {
    }

    /** The fields hold `s` and the two addresses made from it. */
    ghost predicate Holds(s: Settings)
      reads this
    {
      && speakerGroup == s.speakerGroup && channel == s.channel && subchannel == s.subchannel
      && audioPort == s.audioPort && timesyncPort == s.timesyncPort
      && speakerGroupAddr == SpeakerGroupAddr(s.speakerGroup)
      && speakerAddr == SpeakerAddr(s.speakerGroup, s.channel, s.subchannel)
    }

    /**
     * `load_config`: the five settings in order, then the two addresses.
     * The result is false when a setting is out of range and the program
     * exits.
     */
    method LoadConfig(env: map<seq<char>, seq<char>>, temp: ParseTemp) returns (ok: bool)
      requires temp.buffer.Length == ParseTempLen
      modifies this, temp.buffer
      ensures ok <==> LoadSettings(env).Some?
      ensures ok ==> Holds(LoadSettings(env).value)
    {
      var settings := ReadSettings(env, temp);
      ok := settings.Some?;
      if ok {
        Store(settings.value);
      }
    }

    /** The stores of `load_config`: the settings, then the addresses formatted from them. */
    method Store(s: Settings)
      modifies this
      ensures Holds(s)
    {
      speakerGroup, channel, subchannel := s.speakerGroup, s.channel, s.subchannel;
      audioPort, timesyncPort := s.audioPort, s.timesyncPort;
      speakerGroupAddr := SpeakerGroupAddr(speakerGroup);
      speakerAddr := SpeakerAddr(speakerGroup, channel, subchannel);
    }
  }

  /** The five `parse_uint16` calls of `load_config`, in order; `None` at the first that exits. */
  method ReadSettings(env: map<seq<char>, seq<char>>, temp: ParseTemp) returns (r: Option<Settings>)
    requires temp.buffer.Length == ParseTempLen
    modifies temp.buffer
    ensures r == LoadSettings(env)
  {
    var g := temp.ParseUint16(env, GroupVar, DefaultGroup);
    if g.None? { return None; }
    var c := temp.ParseUint16(env, ChannelVar, DefaultChannel);
    if c.None? { return None; }
    var sc := temp.ParseUint16(env, SubchannelVar, DefaultSubchannel);
    if sc.None? { return None; }
    var ap := temp.ParseUint16(env, AudioPortVar, DefaultAudioPort);
    if ap.None? { return None; }
    var tp := temp.ParseUint16(env, TimesyncPortVar, DefaultTimesyncPort);
    if tp.None? { return None; }
    return Some(Settings(g.value, c.value, sc.value, ap.value, tp.value));
  }

  const GroupVar: seq<char> := "POPUSET_SPEAKER_GROUP"
  const ChannelVar: seq<char> := "POPUSET_CHANNEL"
  const SubchannelVar: seq<char> := "POPUSET_SUBCHANNEL"
  const AudioPortVar: seq<char> := "POPUSET_AUDIO_PORT"
  const TimesyncPortVar: seq<char> := "POPUSET_TIMESYNC_PORT"

  datatype Settings = Settings(speakerGroup: nat, channel: nat, subchannel: nat, audioPort: nat, timesyncPort: nat)

  /** The settings `load_config` stores, or `None` when one of them makes the program exit. */
  function LoadSettings(env: map<seq<char>, seq<char>>): (r: Option<Settings>)
    ensures r.Some? ==> r.value.speakerGroup < U16 && r.value.channel < U16 && r.value.subchannel < U16
                        && r.value.audioPort < U16 && r.value.timesyncPort < U16
  {
    var g := Setting(env, GroupVar, DefaultGroup);
    var c := Setting(env, ChannelVar, DefaultChannel);
    var sc := Setting(env, SubchannelVar, DefaultSubchannel);
    var ap := Setting(env, AudioPortVar, DefaultAudioPort);
    var tp := Setting(env, TimesyncPortVar, DefaultTimesyncPort);
    if g.None? || c.None? || sc.None? || ap.None? || tp.None? then None
    else Some(Settings(g.value, c.value, sc.value, ap.value, tp.value))
  }

  /** A setting as `load_config` reads it. */
  function Setting(env: map<seq<char>, seq<char>>, name: seq<char>, default: seq<char>): Option<nat>
  {
    Uint16Setting(Strncpy(EnvOrDefault(env, name, default), ParseTempLen))
  }

  /** With nothing set, the settings are the defaults: group, channel and subchannel 0, ports 1554 and 1555. */
  lemma EmptyEnvironmentDefaults()
    ensures LoadSettings(map[]) == Some(Settings(0, 0, 0, 1554, 1555))
  {
    DefaultsParse();
  }

  /** A setting given in decimal is stored as given; one out of range makes the program exit. */
  lemma SettingFromEnvironment(env: map<seq<char>, seq<char>>, name: seq<char>, default: seq<char>)
    requires name in env
    ensures forall n: nat :: n < U16 && env[name] == Numeral(n, 10) ==> Setting(env, name, default) == Some(n)
    ensures Atoi(Strncpy(env[name], ParseTempLen)) >= U16 ==> Setting(env, name, default).None?
  {
    forall n: nat | n < U16 && env[name] == Numeral(n, 10) ensures Setting(env, name, default) == Some(n) {
      Uint16SettingReadsDecimal(n);
    }
  }
}
