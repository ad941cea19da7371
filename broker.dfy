/**
 * net.cpp: the broker's bookkeeping of the clients it hears from and
 * sends to, the sweep that forgets silent clients, and the client-list
 * message it builds for the audio thread. Sockets, the codec and the
 * clock are outside the model: what they deliver is passed in.
 */
module Broker {
  import opened Wrappers
  import opened Machine
  import opened CLib
  import opened ClientTables

  /** Samples per channel in one audio packet: 5 ms at 48 kHz. */
  const AudioBuffLen: nat := (5 * 48000) / 1000

  /** How long the broker waits between sweeps, in milliseconds. */
  const CleanInterval: real := 5000.0

  // ------------------------------------------------ the map's key order

  /** `std::string`'s `<=`: lexicographic, character by character. */
  predicate LexLe(a: seq<char>, b: seq<char>)
  {
    if a == [] then true
    else if b == [] then false
    else if a[0] != b[0] then a[0] < b[0]
    else LexLe(a[1..], b[1..])
  }

  lemma {:induction false} LexTotal(a: seq<char>, b: seq<char>)
    ensures LexLe(a, b) || LexLe(b, a)
  {
    if a != [] && b != [] && a[0] == b[0] {
      LexTotal(a[1..], b[1..]);
    }
  }

  lemma {:induction false} LexAntisymmetric(a: seq<char>, b: seq<char>)
    requires LexLe(a, b) && LexLe(b, a)
    ensures a == b
  {
    if a != [] && b != [] {
      LexAntisymmetric(a[1..], b[1..]);
      assert a == [a[0]] + a[1..] && b == [b[0]] + b[1..];
    }
  }

  lemma {:induction false} LexTransitive(a: seq<char>, b: seq<char>, c: seq<char>)
    requires LexLe(a, b) && LexLe(b, c)
    ensures LexLe(a, c)
  {
    if a != [] && b != [] && c != [] && a[0] == b[0] && b[0] == c[0] {
      LexTransitive(a[1..], b[1..], c[1..]);
    }
  }

  /** `k` is the first key of `s` in the map's order. */
  predicate IsLeast(k: seq<char>, s: set<seq<char>>)
  {
    k in s && forall o :: o in s ==> LexLe(k, o)
  }

  lemma {:induction false} LeastExists(s: set<seq<char>>)
    requires s != {}
    ensures exists k :: IsLeast(k, s)
    decreases s
  {
    var x :| x in s;
    var rest := s - {x};
    if rest == {} {
      assert s == {x};
      LexTotal(x, x);
      assert IsLeast(x, s);
    } else {
      LeastExists(rest);
      var m :| IsLeast(m, rest);
      LexTotal(m, x);
      if LexLe(m, x) {
        assert IsLeast(m, s);
      } else {
        forall o | o in s ensures LexLe(x, o) {
          if o != x { LexTransitive(x, m, o); } else { LexTotal(x, x); }
        }
        assert IsLeast(x, s);
      }
    }
  }

  lemma LeastUnique(k1: seq<char>, k2: seq<char>, s: set<seq<char>>)
    requires IsLeast(k1, s) && IsLeast(k2, s)
    ensures k1 == k2
  {
    LexAntisymmetric(k1, k2);
  }

  /** The keys of a `std::map` in the order its iterators visit them: ascending. */
  ghost function SortedKeys(s: set<seq<char>>): (r: seq<seq<char>>)
    ensures s != {} ==> r != [] && IsLeast(r[0], s) && r[1..] == SortedKeys(s - {r[0]})
    decreases s
  {
    if s == {} then []
    else
      LeastExists(s);
      var k :| IsLeast(k, s);
      [k] + SortedKeys(s - {k})
  }

  /** Taking the least key off the front. */
  lemma SortedKeysUnfold(s: set<seq<char>>, k: seq<char>)
    requires IsLeast(k, s)
    ensures SortedKeys(s) == [k] + SortedKeys(s - {k})
  {
    var r := SortedKeys(s);
    LeastUnique(k, r[0], s);
    assert r == [r[0]] + r[1..];
  }

  /** Strictly ascending, so no key twice. */
  ghost predicate Ascending(keys: seq<seq<char>>)
  {
    forall i, j :: 0 <= i < j < |keys| ==> LexLe(keys[i], keys[j]) && keys[i] != keys[j]
  }

  /** The traversal visits every key once and nothing else. */
  lemma {:induction false} SortedKeysListed(s: set<seq<char>>)
    ensures Listed(SortedKeys(s)) == s
    decreases s
  {
    if s != {} {
      var r := SortedKeys(s);
      SortedKeysListed(s - {r[0]});
      ListedCons(r);
    }
  }

  /** ... in ascending order. */
  lemma {:induction false} SortedKeysAscending(s: set<seq<char>>)
    ensures Ascending(SortedKeys(s))
    decreases s
  {
    if s != {} {
      var r := SortedKeys(s);
      var rest := r[1..];
      SortedKeysAscending(s - {r[0]});
      SortedKeysListed(s - {r[0]});
      forall i, j | 0 <= i < j < |r| ensures LexLe(r[i], r[j]) && r[i] != r[j] {
        assert r[j] == rest[j - 1];
        if i == 0 {
          assert r[j] in Listed(rest);
        } else {
          assert r[i] == rest[i - 1];
        }
      }
    }
  }

  lemma SortedKeysEnumerates(s: set<seq<char>>)
    ensures Listed(SortedKeys(s)) == s
    ensures Ascending(SortedKeys(s))
  {
    SortedKeysListed(s);
    SortedKeysAscending(s);
  }

  // ------------------------------------------------ client-list message

  /** Each identity followed by its NUL, one after another. */
  function Joined(ids: seq<seq<char>>): (r: seq<char>)
    ensures |r| == TotalLength(ids) + |ids|
  {
    if ids == [] then [] else ids[0] + [NUL] + Joined(ids[1..])
  }

  /** `cl_len`: the identities' lengths added up. */
  function TotalLength(ids: seq<seq<char>>): (r: nat)
    ensures ids != [] && ids[0] != [] ==> r > 0
  {
    if ids == [] then 0 else |ids[0]| + TotalLength(ids[1..])
  }

  lemma {:induction false} JoinedSnoc(ids: seq<seq<char>>, id: seq<char>)
    ensures Joined(ids + [id]) == Joined(ids) + id + [NUL]
    ensures TotalLength(ids + [id]) == TotalLength(ids) + |id|
  {
    if ids != [] {
      assert (ids + [id])[1..] == ids[1..] + [id];
      JoinedSnoc(ids[1..], id);
    } else {
      assert [id][1..] == [];
    }
  }

  /** Identities the audio thread can read back: non-empty and free of NUL. */
  predicate Readable(ids: seq<seq<char>>)
  {
    forall k :: 0 <= k < |ids| ==> ids[k] != [] && forall c :: 0 <= c < |ids[k]| ==> ids[k][c] != NUL
  }

  /** The first NUL from `from` is at `k` when there is none before it. */
  lemma {:induction false} FindAt(s: seq<char>, from: nat, k: nat)
    requires from <= k < |s| && s[k] == NUL
    requires forall j :: from <= j < k ==> s[j] != NUL
    ensures Find(s, from, NUL) == Some(k)
    decreases k - from
  {
    if from < k {
      FindAt(s, from + 1, k);
    }
  }

  /** `data` holds, from `idx`, the identities with their NULs and then one more NUL. */
  ghost predicate Laid(data: seq<char>, idx: nat, ids: seq<seq<char>>)
  {
    && idx + |Joined(ids)| < |data|
    && (forall j :: 0 <= j < |Joined(ids)| ==> data[idx + j] == Joined(ids)[j])
    && data[idx + |Joined(ids)|] == NUL
  }

  /** Where the first identity, its NUL and the rest sit in the layout. */
  lemma JoinedAt(ids: seq<seq<char>>)
    requires ids != []
    ensures forall j :: 0 <= j < |ids[0]| ==> Joined(ids)[j] == ids[0][j]
    ensures Joined(ids)[|ids[0]|] == NUL
    ensures forall j :: 0 <= j < |Joined(ids[1..])| ==> Joined(ids)[|ids[0]| + 1 + j] == Joined(ids[1..])[j]
  {
    assert Joined(ids) == ids[0] + [NUL] + Joined(ids[1..]);
  }

  /** The first identity of a layout is read up to its NUL. */
  lemma LaidHead(data: seq<char>, idx: nat, ids: seq<seq<char>>)
    requires ids != [] && Readable(ids) && Laid(data, idx, ids)
    ensures idx + |ids[0]| < |data|
    ensures Find(data, idx, NUL) == Some(idx + |ids[0]|) && data[idx..idx + |ids[0]|] == ids[0]
    ensures data[idx] != NUL
  {
    var a := ids[0];
    var e := idx + |a|;
    JoinedAt(ids);
    forall j | idx <= j < e ensures data[j] == a[j - idx] {
      assert data[idx + (j - idx)] == Joined(ids)[j - idx];
    }
    assert data[e] == NUL by {
      assert data[idx + |a|] == Joined(ids)[|a|];
    }
    FindAt(data, idx, e);
  }

  /** After the first identity and its NUL, the rest of the layout. */
  lemma LaidTail(data: seq<char>, idx: nat, ids: seq<seq<char>>)
    requires ids != [] && Readable(ids) && Laid(data, idx, ids)
    ensures Readable(ids[1..]) && Laid(data, idx + |ids[0]| + 1, ids[1..])
  {
    var a := ids[0];
    JoinedAt(ids);
    var m := |Joined(ids[1..])|;
    forall j | 0 <= j < m ensures data[idx + |a| + 1 + j] == Joined(ids[1..])[j] {
      assert data[idx + (|a| + 1 + j)] == Joined(ids)[|a| + 1 + j];
    }
    forall k | 0 <= k < |ids[1..]| ensures ids[1..][k] == ids[k + 1] { }
  }

  /** The audio thread's walk reads one identity and goes on after its NUL. */
  lemma ClientListStep(data: seq<char>, idx: nat, e: nat)
    requires idx < |data| && data[idx] != NUL && Find(data, idx, NUL) == Some(e)
    requires ClientList(data, e + 1).Some?
    ensures ClientList(data, idx) == Some([data[idx..e]] + ClientList(data, e + 1).value)
  {
  }

  /** Readable identities laid out with a final NUL are read back exactly by the audio thread. */
  lemma {:induction false} JoinedParses(data: seq<char>, idx: nat, ids: seq<seq<char>>)
    requires Readable(ids) && Laid(data, idx, ids)
    ensures ClientList(data, idx) == Some(ids)
    decreases |ids|
  {
    if ids != [] {
      var e := idx + |ids[0]|;
      LaidHead(data, idx, ids);
      LaidTail(data, idx, ids);
      JoinedParses(data, e + 1, ids[1..]);
      ClientListStep(data, idx, e);
      assert [ids[0]] + ids[1..] == ids;
    } else {
      assert data[idx + |Joined(ids)|] == NUL;
    }
  }

  /** A list the audio thread reads from `idx` occupies its identities, their NULs and one more NUL. */
  lemma {:induction false} ClientListSpan(data: seq<char>, idx: nat)
    requires ClientList(data, idx).Some?
    ensures idx + |Joined(ClientList(data, idx).value)| < |data|
    decreases |data| - idx
  {
    if data[idx] != NUL {
      var e := Find(data, idx, NUL).value;
      ClientListSpan(data, e + 1);
      var ids := ClientList(data, idx).value;
      assert ids[0] == data[idx..e] && ids[1..] == ClientList(data, e + 1).value;
    }
  }

  /**
   * The command data sent for the keys `keys`, as the comment at net.cpp:124
   * describes the buffer: identities with their NULs, then a final NUL; the
   * command's length field is an `unsigned short`.
   */
  function ClientListMessage(keys: seq<seq<char>>): (r: seq<char>)
  {
    var buffer := Joined(keys) + [NUL];
    buffer[..Wrap(|buffer|, U16)]
  }

  /** The audio thread reads back exactly the keys sent, unless the length field overflows. */
  lemma ClientListMessageRoundTrip(keys: seq<seq<char>>)
    requires Readable(keys) && |Joined(keys)| + 1 < U16
    ensures ClientList(ClientListMessage(keys), 0) == Some(keys)
  {
    var buffer := Joined(keys) + [NUL];
    assert ClientListMessage(keys) == buffer;
    assert Laid(buffer, 0, keys);
    JoinedParses(buffer, 0, keys);
  }

  /**
   * The message as net.cpp:133-136 builds it: after the copy loop the
   * buffer holds the identities with their NULs and one byte never written
   * (`last`); the NUL is then written at `cl_len - 1`, which is outside the
   * buffer when `cl_len` is 0 (`None`), and `cl_len` bytes are sent.
   */
  function ClientListAsWritten(keys: seq<seq<char>>, last: char): (r: Option<seq<char>>)
    ensures r.None? <==> TotalLength(keys) == 0
    ensures r.Some? ==> |r.value| <= TotalLength(keys) < |Joined(keys)| + 1
  {
    var buffer := Joined(keys) + [last];
    var clLen := TotalLength(keys);
    if clLen == 0 then None
    else Some(buffer[clLen - 1 := NUL][..Wrap(clLen, U16)])
  }

  /** As written, the audio thread never reads back the full list, whatever the keys. */
  lemma ClientListAsWrittenNeverRoundTrips(keys: seq<seq<char>>, last: char)
    requires ClientListAsWritten(keys, last).Some?
    ensures ClientList(ClientListAsWritten(keys, last).value, 0) != Some(keys)
  {
    var msg := ClientListAsWritten(keys, last).value;
    if ClientList(msg, 0) == Some(keys) {
      ClientListSpan(msg, 0);
      assert false;
    }
  }

  /** Two clients "ab" and "cd": as written the audio thread hears only of "ab"; corrected, of both. */
  lemma TwoClients(last: char)
    ensures ClientListAsWritten(["ab", "cd"], last) == Some("ab" + [NUL, NUL])
    ensures ClientList("ab" + [NUL, NUL], 0) == Some(["ab"])
    ensures ClientList(ClientListMessage(["ab", "cd"]), 0) == Some(["ab", "cd"])
  {
    var keys: seq<seq<char>> := ["ab", "cd"];
    assert keys[1..] == ["cd"] && keys[1..][1..] == [];
    assert Joined(keys) == "ab" + [NUL] + "cd" + [NUL];
    var written := (Joined(keys) + [last])[3 := NUL];
    assert written[..4] == "ab" + [NUL, NUL];
    var msg := "ab" + [NUL, NUL];
    FindAt(msg, 0, 2);
    assert msg[0..2] == "ab";
    assert ClientList(msg, 3) == Some([]);
    assert ClientList(msg, 0) == Some([msg[0..2]] + []);
    assert [msg[0..2]] + [] == ["ab"];
    ClientListMessageRoundTrip(keys);
  }

  /**
   * End to end: when every identity is a non-empty C string and the message
   * fits its length field, the audio thread that applies the broker's
   * message ends up knowing exactly the broker's inbound clients.
   */
  lemma AudioThreadLearnsInbound(clients: set<seq<char>>, socks: map<seq<char>, nat>, offsets: map<nat, int>, next: nat)
    requires forall k :: k in clients ==> k != [] && forall c :: 0 <= c < |k| ==> k[c] != NUL
    requires |Joined(SortedKeys(clients))| + 1 < U16
    requires TablesAgree(socks, offsets, next)
    ensures ClientList(ClientListMessage(SortedKeys(clients)), 0) == Some(SortedKeys(clients))
    ensures ApplyList(socks, offsets, next, SortedKeys(clients)).0.Keys == clients
  {
    var keys := SortedKeys(clients);
    SortedKeysEnumerates(clients);
    assert Readable(keys) by {
      forall k | 0 <= k < |keys| ensures keys[k] in clients {
        assert keys[k] in Listed(keys);
      }
    }
    ClientListMessageRoundTrip(keys);
    ClientListOutcome(socks, offsets, next, keys);
  }

  // ------------------------------------------------------------ the sweep

  /** The entries kept by a sweep: those heard from at or after `cutoff`. */
  function Swept(inbound: map<seq<char>, real>, cutoff: real): (r: map<seq<char>, real>)
  {
    map k | k in inbound && !(cutoff > inbound[k]) :: inbound[k]
  }

  /** A sweep forgets exactly the clients last heard before the cutoff and keeps the others' times. */
  lemma SweptKeeps(inbound: map<seq<char>, real>, cutoff: real)
    ensures forall k :: k in Swept(inbound, cutoff) <==> k in inbound && inbound[k] >= cutoff
    ensures forall k :: k in Swept(inbound, cutoff) ==> Swept(inbound, cutoff)[k] == inbound[k]
    ensures Swept(Swept(inbound, cutoff), cutoff) == Swept(inbound, cutoff)
  {
  }

  /** The sweep loop's state: the keys in `rest` are still to be visited. */
  ghost predicate SweptExcept(cur: map<seq<char>, real>, orig: map<seq<char>, real>, cutoff: real, rest: set<seq<char>>)
  {
    && rest <= orig.Keys
    && (forall k :: k in cur <==> k in orig && (k in rest || !(cutoff > orig[k])))
    && (forall k :: k in cur ==> cur[k] == orig[k])
  }

  lemma SweptDone(cur: map<seq<char>, real>, orig: map<seq<char>, real>, cutoff: real)
    requires SweptExcept(cur, orig, cutoff, {})
    ensures cur == Swept(orig, cutoff)
  {
  }

  /** The largest of `xs` and 0. */
  function MaxChannels(xs: seq<int>): (r: int)
    ensures r >= 0 && forall i :: 0 <= i < |xs| ==> xs[i] <= r
    ensures r == 0 || exists i :: 0 <= i < |xs| && xs[i] == r
  {
    if xs == [] then 0
    else
      var m := MaxChannels(xs[..|xs| - 1]);
      assert forall i :: 0 <= i < |xs| - 1 ==> xs[..|xs| - 1][i] == xs[i];
      if xs[|xs| - 1] > m then xs[|xs| - 1] else m
  }

  // ------------------------------------------------------------ the broker

  class Broker {
    /** Last time each client was heard from, in milliseconds. */
    var inbound: map<seq<char>, real>
    /** Addresses audio is sent to. */
    var outbound: set<seq<char>>
    var lastClean: real
    var clientListDirty: bool
    /** Capacity of the scratch buffer audio is decoded into. */
    var tempBuffLen: int

    /** Identities are C strings: none holds a NUL. */
    ghost predicate Valid()
      reads this
    {
      forall k :: k in inbound ==> forall c :: 0 <= c < |k| ==> k[c] != NUL
    }

    /**
     * The constructor's bookkeeping: room for a packet of the widest
     * device, no clients, and the sweep clock started at `now`.
     */
    constructor (deviceChannels: seq<int>, now: real)
      ensures Valid() && inbound == map[] && outbound == {}
      ensures tempBuffLen == MaxChannels(deviceChannels) * AudioBuffLen
      ensures !clientListDirty && lastClean == now
    {
      var maxChannels := 0;
      var i := 0;
      while i < |deviceChannels|
        invariant i <= |deviceChannels|
        invariant maxChannels == MaxChannels(deviceChannels[..i])
      {
        assert deviceChannels[..i + 1][..i] == deviceChannels[..i];
        maxChannels := if deviceChannels[i] > maxChannels then deviceChannels[i] else maxChannels;
        i := i + 1;
      }
      assert deviceChannels[..i] == deviceChannels;
      inbound, outbound := map[], {};
      tempBuffLen := maxChannels * AudioBuffLen;
      clientListDirty := false;
      lastClean := now;
    }

    /** `connect`: `addr` joins the outbound set. */
    method Connect(addr: seq<char>)
      modifies this`outbound
      ensures outbound == old(outbound) + {addr}
    {
      outbound := outbound + {addr};
    }

    /** `disconnect`: `addr` leaves the outbound set. */
    method Disconnect(addr: seq<char>)
      modifies this`outbound
      ensures outbound == old(outbound) - {addr}
    {
      outbound := outbound - {addr};
    }

    /**
     * `handle_world` for a packet whose identity frame is `frame`, whose
     * header announces `audioLen` samples and which the codec decoded into
     * `decLen` samples (or an error code), heard at `now`. The result says
     * whether the audio was forwarded to the devices.
     */
    method HandleWorld(frame: seq<char>, audioLen: int, decLen: int, now: real) returns (forwarded: bool)
      requires Valid() && Terminated(frame, 0)
      modifies this`inbound, this`clientListDirty, this`tempBuffLen
      ensures Valid()
      ensures tempBuffLen == if audioLen > old(tempBuffLen) then audioLen else old(tempBuffLen)
      ensures forwarded <==> decLen != 0 && CRem(decLen, AudioBuffLen) == 0
      ensures !forwarded ==> inbound == old(inbound) && clientListDirty == old(clientListDirty)
      ensures forwarded ==> var client := CString(frame, 0);
        inbound == old(inbound)[client := now] && (clientListDirty <==> client !in old(inbound))
    {
      var client := CString(frame, 0);
      if audioLen > tempBuffLen {
        tempBuffLen := audioLen;
      }
      if decLen == 0 || CRem(decLen, AudioBuffLen) != 0 {
        return false;
      }
      var newInbound := client !in inbound;
      inbound := inbound[client := now];
      clientListDirty := newInbound;
      forwarded := true;
    }

    /** Lines 106-115: every five seconds, forget the clients not heard from since the last sweep. */
    method Sweep(now: real)
      modifies this`inbound, this`lastClean
      ensures now - old(lastClean) > CleanInterval ==> inbound == Swept(old(inbound), old(lastClean)) && lastClean == now
      ensures !(now - old(lastClean) > CleanInterval) ==> inbound == old(inbound) && lastClean == old(lastClean)
    {
      if now - lastClean > CleanInterval {
        var rest := inbound.Keys;
        while rest != {}
          invariant SweptExcept(inbound, old(inbound), lastClean, rest)
          invariant lastClean == old(lastClean)
          decreases rest
        {
          var k :| k in rest;
          if lastClean > inbound[k] {
            inbound := inbound - {k};
          }
          rest := rest - {k};
        }
        SweptDone(inbound, old(inbound), lastClean);
        lastClean := now;
      }
    }

    /** Iterating over `inbound`: its keys in ascending order. */
    method InOrder() returns (keys: seq<seq<char>>)
      ensures keys == SortedKeys(inbound.Keys)
    {
      var rest := inbound.Keys;
      keys := [];
      while rest != {}
        invariant keys + SortedKeys(rest) == SortedKeys(inbound.Keys)
        decreases rest
      {
        LeastExists(rest);
        var k :| IsLeast(k, rest);
        SortedKeysUnfold(rest, k);
        keys := keys + [k];
        rest := rest - {k};
      }
    }

    /**
     * Lines 106-139: the sweep, then, when a new client has appeared, the
     * client-list command for the audio thread (the corrected message; see
     * `ClientListAsWritten`). `sent` is the command's data, `None` when no
     * command is sent.
     */
    method Process(now: real) returns (sent: Option<seq<char>>)
      requires Valid()
      modifies this`inbound, this`lastClean, this`clientListDirty
      ensures Valid() && !clientListDirty
      ensures if now - old(lastClean) > CleanInterval
              then inbound == Swept(old(inbound), old(lastClean)) && lastClean == now
              else inbound == old(inbound) && lastClean == old(lastClean)
      ensures sent.Some? <==> old(clientListDirty)
      ensures sent.Some? ==> sent.value == ClientListMessage(SortedKeys(inbound.Keys))
    {
      Sweep(now);
      sent := None;
      if clientListDirty {
        var keys := InOrder();
        var message := BuildClientList(keys);
        sent := Some(message);
      }
      clientListDirty := false;
    }
  }

  /**
   * Lines 119-137 for the keys `keys` in map order: `cl_len`, a buffer of
   * `cl_len + count + 1` characters, the copy loop, the final NUL at the
   * last character, and the command data as the length field lets through.
   */
  method BuildClientList(keys: seq<seq<char>>) returns (message: seq<char>)
    ensures message == ClientListMessage(keys)
  {
    var clLen := 0;
    var i := 0;
    while i < |keys|
      invariant i <= |keys| && clLen == TotalLength(keys[..i])
    {
      JoinedSnoc(keys[..i], keys[i]);
      assert keys[..i + 1] == keys[..i] + [keys[i]];
      clLen := clLen + |keys[i]|;
      i := i + 1;
    }
    assert keys[..i] == keys;
    var buffer := new char[clLen + |keys| + 1];
    CopyIdentities(buffer, keys);
    buffer[clLen + |keys|] := NUL;
    assert buffer[..] == buffer[..buffer.Length - 1] + [NUL];
    message := buffer[..Wrap(buffer.Length, U16)];
  }

  /** Lines 127-132: each key and its NUL into `buffer`, one after another; the last byte is left alone. */
  method CopyIdentities(buffer: array<char>, keys: seq<seq<char>>)
    requires buffer.Length == TotalLength(keys) + |keys| + 1
    modifies buffer
    ensures buffer[..buffer.Length - 1] == Joined(keys)
    ensures buffer[buffer.Length - 1] == old(buffer[buffer.Length - 1])
  {
    var idx := 0;
    var i := 0;
    while i < |keys|
      invariant i <= |keys| && idx == TotalLength(keys[..i]) + i && idx < buffer.Length
      invariant buffer[..idx] == Joined(keys[..i])
      invariant buffer[buffer.Length - 1] == old(buffer[buffer.Length - 1])
    {
      ghost var before := buffer[..];
      JoinedPrefixFits(keys, i);
      CopyCString(buffer, idx, keys[i]);
      CopyAdvances(keys, i, idx, before, buffer[..]);
      idx := idx + |keys[i]| + 1;
      i := i + 1;
    }
    assert keys[..i] == keys;
  }

  /** One pass of the copy loop, on the buffer's contents before and after it. */
  lemma CopyAdvances(keys: seq<seq<char>>, i: nat, idx: nat, before: seq<char>, after: seq<char>)
    requires i < |keys| && |before| == |after|
    requires idx == TotalLength(keys[..i]) + i && idx + |keys[i]| + 1 < |after|
    requires before[..idx] == Joined(keys[..i])
    requires after[..idx] == before[..idx]
    requires after[idx..idx + |keys[i]| + 1] == keys[i] + [NUL]
    requires after[idx + |keys[i]| + 1..] == before[idx + |keys[i]| + 1..]
    ensures idx + |keys[i]| + 1 == TotalLength(keys[..i + 1]) + i + 1
    ensures after[..idx + |keys[i]| + 1] == Joined(keys[..i + 1])
    ensures after[|after| - 1] == before[|after| - 1]
  {
    JoinedSnoc(keys[..i], keys[i]);
    assert keys[..i + 1] == keys[..i] + [keys[i]];
    var n := idx + |keys[i]| + 1;
    assert after[..n] == after[..idx] + after[idx..n];
    assert after[|after| - 1] == after[n..][|after| - 1 - n];
  }

  lemma {:induction false} JoinedPrefixFits(keys: seq<seq<char>>, i: nat)
    requires i < |keys|
    ensures TotalLength(keys[..i]) + |keys[i]| + i + 1 <= TotalLength(keys) + |keys|
    decreases |keys| - i
  {
    JoinedSnoc(keys[..i], keys[i]);
    assert keys[..i + 1] == keys[..i] + [keys[i]];
    if i + 1 < |keys| {
      JoinedPrefixFits(keys, i + 1);
      JoinedSnoc(keys[..i + 1], keys[i + 1]);
      assert keys[..i + 2] == keys[..i + 1] + [keys[i + 1]];
    } else {
      assert keys[..i + 1] == keys;
    }
  }

  /** One `memcpy` of a string with its NUL: `s` and NUL at `idx`, nothing else touched. */
  method CopyCString(buffer: array<char>, idx: nat, s: seq<char>)
    requires idx + |s| + 1 <= buffer.Length
    modifies buffer
    ensures buffer[..idx] == old(buffer[..idx])
    ensures buffer[idx..idx + |s| + 1] == s + [NUL]
    ensures buffer[idx + |s| + 1..] == old(buffer[idx + |s| + 1..])
  {
    var k := 0;
    while k < |s|
      invariant k <= |s|
      invariant forall j :: 0 <= j < idx ==> buffer[j] == old(buffer[j])
      invariant forall j :: 0 <= j < k ==> buffer[idx + j] == s[j]
      invariant forall j :: idx + k <= j < buffer.Length ==> buffer[j] == old(buffer[j])
    {
      buffer[idx + k] := s[k];
      k := k + 1;
    }
    buffer[idx + k] := NUL;
    assert buffer[idx..idx + |s| + 1] == s + [NUL] by {
      forall j | 0 <= j < |s| + 1
        ensures buffer[idx..idx + |s| + 1][j] == (s + [NUL])[j]
      {
        if j < |s| {
          assert buffer[idx + j] == s[j];
        }
      }
    }
  }
}
