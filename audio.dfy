/**
 * audio.cpp: channel mixdown, the audio thread's client tables, device
 * lookup by name and the silence test. Sockets are opaque handles; a new
 * one is modelled as the next unused number.
 */
module Audio {
  import opened Wrappers
  import opened CLib
  import opened ClientTables

  // ------------------------------------------------------------- mixdown

  /** Each sample of `xs` repeated `channels` times, frame after frame: the interleaved copy. */
  function Spread(xs: seq<int>, channels: nat): (r: seq<int>)
    ensures |r| == |xs| * channels
  {
    if xs == [] then []
    else
      Machine.MulAddDist(|xs| - 1, 1, channels);
      Spread(xs[..|xs| - 1], channels) + Copies(xs[|xs| - 1], channels)
  }

  function Copies(v: int, n: nat): (r: seq<int>)
    ensures |r| == n && forall k :: 0 <= k < n ==> r[k] == v
  {
    seq(n, _ => v)
  }

  /** Channel `k` of frame `i` of the interleaved copy is sample `i`. */
  lemma {:induction false} SpreadAt(xs: seq<int>, channels: nat, i: nat, k: nat)
    requires i < |xs| && k < channels
    ensures i * channels + k < |xs| * channels && Spread(xs, channels)[i * channels + k] == xs[i]
  {
    var n := |xs| - 1;
    Machine.MulAddDist(n, 1, channels);
    if i < n {
      SpreadAt(xs[..n], channels, i, k);
      Machine.MulAddDist(i, 1, channels);
      Machine.LemmaMulLe(i + 1, n, channels);
      assert xs[..n][i] == xs[i];
    } else {
      assert Spread(xs, channels)[i * channels + k] == Copies(xs[n], channels)[k];
    }
  }

  /**
   * `mixdown_channels` on `numSamples` frames. Equal channel counts write
   * nothing. Mono input is copied to every output channel of every frame,
   * and then, there being no `break`, falls through to the default branch,
   * which prints its error; any other input prints the error too. The
   * result says whether the error is printed. The averaging of several
   * input channels into a mono output is not modelled, so that case is
   * excluded.
   */
  method MixdownChannels(inData: array<int>, outData: array<int>, numSamples: nat, inChannels: nat, outChannels: nat)
    returns (errorPrinted: bool)
    requires inChannels == outChannels || inChannels == 1 || outChannels != 1
    requires inData != outData
    requires inChannels == 1 && outChannels != 1 ==> numSamples <= inData.Length && numSamples * outChannels <= outData.Length
    modifies outData
    ensures inChannels == outChannels ==> !errorPrinted && outData[..] == old(outData[..])
    ensures inChannels != outChannels ==> errorPrinted
    ensures inChannels != outChannels && inChannels != 1 ==> outData[..] == old(outData[..])
    ensures inChannels == 1 && outChannels != 1 ==>
      && outData[..numSamples * outChannels] == Spread(inData[..numSamples], outChannels)
      && outData[numSamples * outChannels..] == old(outData[numSamples * outChannels..])
  {
    if inChannels == outChannels {
      return false;
    }
    if inChannels == 1 {
      var i := 0;
      while i < numSamples
        invariant i <= numSamples
        invariant outData[..i * outChannels] == Spread(inData[..i], outChannels)
        invariant outData[i * outChannels..] == old(outData[i * outChannels..])
      {
        var base := i * outChannels;
        Machine.MulAddDist(i, 1, outChannels);
        Machine.LemmaMulLe(i + 1, numSamples, outChannels);
        CopyToFrame(outData, base, outChannels, inData[i]);
        assert inData[..i + 1][..i] == inData[..i];
        assert outData[..base + outChannels] == outData[..base] + outData[base..base + outChannels];
        i := i + 1;
      }
    }
    errorPrinted := true;
  }

  /** The inner loop: `v` into the `channels` slots of one output frame, from `base`. */
  method CopyToFrame(outData: array<int>, base: nat, channels: nat, v: int)
    requires base + channels <= outData.Length
    modifies outData
    ensures outData[..base] == old(outData[..base])
    ensures outData[base..base + channels] == Copies(v, channels)
    ensures outData[base + channels..] == old(outData[base + channels..])
  {
    var k := 0;
    while k < channels
      invariant k <= channels
      invariant outData[..base] == old(outData[..base])
      invariant outData[base..base + k] == Copies(v, k)
      invariant outData[base + k..] == old(outData[base + k..])
    {
      outData[base + k] := v;
      k := k + 1;
    }
  }

  // --------------------------------------------------------- client list

  /**
   * The audio thread's tables: `clientSocks` maps identities to their
   * sockets and `clientOffsets` maps sockets to their write offsets.
   */
  class AudioThread {
    var clientSocks: map<seq<char>, nat>
    var clientOffsets: map<nat, int>
    var nextSock: nat

    ghost predicate Valid()
      reads this
    {
      TablesAgree(clientSocks, clientOffsets, nextSock)
    }

    constructor ()
      ensures Valid() && clientSocks == map[] && clientOffsets == map[]
    {
      clientSocks, clientOffsets, nextSock := map[], map[], 0;
    }

    /**
     * The `CMD_CLIENTLIST` handler: walk the identities, creating a socket
     * with offset 0 for each new one, then erase every known client that is
     * not listed.
     */
    method ApplyClientList(data: seq<char>)
      requires Valid() && ClientList(data, 0).Some?
      modifies this
      ensures Valid()
      ensures (clientSocks, clientOffsets, nextSock)
              == ApplyList(old(clientSocks), old(clientOffsets), old(nextSock), ClientList(data, 0).value)
    {
      ghost var ids := ClientList(data, 0).value;
      ghost var target := AddClients(clientSocks, clientOffsets, nextSock, ids);
      ghost var seen: seq<seq<char>> := [];
      var clients: set<seq<char>> := {};
      var idx := 0;
      while data[idx] != NUL
        invariant WalkState(data, idx, ids, seen, clients, clientSocks, clientOffsets, nextSock, target)
        decreases |data| - idx
      {
        ghost var idx0, seen0, clients0 := idx, seen, clients;
        ghost var socks0, offsets0, next0 := clientSocks, clientOffsets, nextSock;
        var identityLen := |CString(data, idx)|;
        var identity := data[idx..idx + identityLen];
        AddIdentity(identity);
        seen := seen + [identity];
        clients := clients + {identity};
        idx := idx + identityLen + 1;
        WalkStep(data, idx0, ids, seen0, clients0, socks0, offsets0, next0, target, identity,
                 idx, seen, clients, clientSocks, clientOffsets, nextSock);
      }
      WalkDone(data, idx, ids, seen, clients, clientSocks, clientOffsets, nextSock, target);
      AddClientsAgree(old(clientSocks), old(clientOffsets), old(nextSock), ids);
      RemoveUnlisted(clients);
    }

    /** The body of the first pass for one identity: a new socket with offset 0 unless it is known. */
    method AddIdentity(identity: seq<char>)
      modifies this
      ensures (clientSocks, clientOffsets, nextSock) == AddOne(old(clientSocks), old(clientOffsets), old(nextSock), identity)
    {
      if identity !in clientSocks {
        var sock := nextSock;
        nextSock := nextSock + 1;
        clientSocks := clientSocks[identity := sock];
        clientOffsets := clientOffsets[sock := 0];
      }
    }

    /**
   * The second pass: every known client not in `clients` is erased from
   * both tables. The code erases from `clientSocks` inside its own
   * range-for, which is undefined; this is the evident intent.
   */
    method RemoveUnlisted(clients: set<seq<char>>)
      requires Valid()
      modifies this`clientSocks, this`clientOffsets
      ensures Valid()
      ensures (clientSocks, clientOffsets) == KeepListed(old(clientSocks), old(clientOffsets), clients)
    {
      KeepListedProperties(clientSocks, clientOffsets, nextSock, clients);
      var kept := map id | id in clientSocks && id in clients :: clientSocks[id];
      clientOffsets := map s | s in clientOffsets && s in kept.Values :: clientOffsets[s];
      clientSocks := kept;
    }
  }

  // ------------------------------------------------------ device lookup

  /**
   * `getDeviceId` over the devices' names from position `i`: the first
   * device whose name contains `name` ignoring case, or -1. On a second
   * match the code prints a warning whose arguments do not match its
   * format, which is undefined; the model takes the evident intent, that
   * the warning is printed and the loop ends with the first match chosen.
   */
  function GetDeviceId(names: seq<seq<char>>, name: seq<char>, i: nat := 0): (r: int)
    requires i <= |names|
    ensures r == -1 || i <= r < |names|
    ensures r >= 0 ==> ContainsIgnoringCase(names[r], name)
    ensures r >= 0 ==> forall j :: i <= j < r ==> !ContainsIgnoringCase(names[j], name)
    ensures r == -1 <==> forall j :: i <= j < |names| ==> !ContainsIgnoringCase(names[j], name)
    decreases |names| - i
  {
    if i == |names| then -1
    else if ContainsIgnoringCase(names[i], name) then i
    else GetDeviceId(names, name, i + 1)
  }

  /** Case is ignored both ways: a name that is some device's name, in any case, finds a device. */
  lemma GetDeviceIdFindsExactName(names: seq<seq<char>>, name: seq<char>, j: nat)
    requires j < |names| && Lowered(names[j]) == Lowered(name)
    ensures 0 <= GetDeviceId(names, name) <= j
  {
    assert names[j][0..|name|] == names[j];
    assert MatchesAt(names[j], name, 0);
  }

  // ------------------------------------------------------------ silence

  /** `is_silence`: the loop that returns false at the first non-zero sample. */
  function IsSilence(buffer: seq<int>): bool
  {
    if buffer == [] then true
    else if buffer[0] != 0 then false
    else IsSilence(buffer[1..])
  }

  lemma {:induction false} IsSilenceMeansAllZero(buffer: seq<int>)
    ensures IsSilence(buffer) <==> forall i :: 0 <= i < |buffer| ==> buffer[i] == 0
  {
    if buffer != [] {
      IsSilenceMeansAllZero(buffer[1..]);
      assert forall i :: 1 <= i < |buffer| ==> buffer[i] == buffer[1..][i - 1];
    }
  }
}
