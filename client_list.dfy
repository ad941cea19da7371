/**
 * audio.cpp: the client-list message the audio thread receives and the
 * two passes that bring its tables in line with it, as functions over the
 * tables. The thread itself, which updates them in place, is
 * `Audio.AudioThread`.
 */
module ClientTables {
  import opened Wrappers
  import opened CLib

  /**
   * The identities of a client-list message read from position `idx`:
   * NUL-terminated strings one after another, ending at an empty entry.
   * `None` when the walk runs off the end of the data.
   */
  function ClientList(data: seq<char>, idx: nat): (r: Option<seq<seq<char>>>)
    decreases |data| - idx
  {
    if idx >= |data| then None
    else if data[idx] == NUL then Some([])
    else match Find(data, idx, NUL)
      case None => None
      case Some(e) =>
        match ClientList(data, e + 1)
        case None => None
        case Some(rest) => Some([data[idx..e]] + rest)
  }

  /** Every listed identity is a non-empty string without NUL. */
  lemma {:induction false} ClientListEntries(data: seq<char>, idx: nat)
    requires ClientList(data, idx).Some?
    ensures var ids := ClientList(data, idx).value;
      forall k :: 0 <= k < |ids| ==> ids[k] != [] && forall c :: 0 <= c < |ids[k]| ==> ids[k][c] != NUL
    decreases |data| - idx
  {
    if data[idx] != NUL {
      var e := Find(data, idx, NUL).value;
      ClientListEntries(data, e + 1);
      var ids := ClientList(data, idx).value;
      assert ids[1..] == ClientList(data, e + 1).value;
    }
  }

  /**
   * The first pass over the list: each identity not yet in `socks` gets a
   * new socket (the next unused number) with write offset 0.
   */
  function AddClients(socks: map<seq<char>, nat>, offsets: map<nat, int>, next: nat, ids: seq<seq<char>>)
    : (r: (map<seq<char>, nat>, map<nat, int>, nat))
    ensures r.2 >= next
    decreases |ids|
  {
    if ids == [] then (socks, offsets, next)
    else if ids[0] in socks then AddClients(socks, offsets, next, ids[1..])
    else AddClients(socks[ids[0] := next], offsets[next := 0], next + 1, ids[1..])
  }

  /** Adding one identity: a new socket (the next unused number) with write offset 0, unless it is known. */
  function AddOne(socks: map<seq<char>, nat>, offsets: map<nat, int>, next: nat, id: seq<char>)
    : (r: (map<seq<char>, nat>, map<nat, int>, nat))
  {
    if id in socks then (socks, offsets, next) else (socks[id := next], offsets[next := 0], next + 1)
  }

  /** The second pass: clients missing from the list are erased from both tables. */
  function KeepListed(socks: map<seq<char>, nat>, offsets: map<nat, int>, clients: set<seq<char>>)
    : (r: (map<seq<char>, nat>, map<nat, int>))
    ensures r.0.Keys == socks.Keys * clients
  {
    var kept := map id | id in socks && id in clients :: socks[id];
    (kept, map s | s in offsets && s in kept.Values :: offsets[s])
  }

  /** The tables agree: the offsets are keyed by exactly the sockets in use, all distinct and below `next`. */
  ghost predicate TablesAgree(socks: map<seq<char>, nat>, offsets: map<nat, int>, next: nat)
  {
    && offsets.Keys == socks.Values
    && (forall id :: id in socks ==> socks[id] < next)
    && (forall a, b :: a in socks && b in socks && socks[a] == socks[b] ==> a == b)
  }

  /** Adding keeps the tables in agreement, keeps every old entry, and adds each listed identity. */
  lemma AddClientsProperties(socks: map<seq<char>, nat>, offsets: map<nat, int>, next: nat, ids: seq<seq<char>>)
    requires TablesAgree(socks, offsets, next)
    ensures var r := AddClients(socks, offsets, next, ids);
      && TablesAgree(r.0, r.1, r.2)
      && r.0.Keys == socks.Keys + Listed(ids)
      && (forall id :: id in socks ==> r.0[id] == socks[id] && r.1[socks[id]] == offsets[socks[id]])
      && (forall id :: id in r.0 && id !in socks ==> r.1[r.0[id]] == 0)
  {
    AddClientsAgree(socks, offsets, next, ids);
    AddClientsKeys(socks, offsets, next, ids);
    AddClientsKeeps(socks, offsets, next, ids);
    AddClientsFresh(socks, offsets, next, ids);
  }

  lemma {:induction false} AddClientsAgree(socks: map<seq<char>, nat>, offsets: map<nat, int>, next: nat, ids: seq<seq<char>>)
    requires TablesAgree(socks, offsets, next)
    ensures var r := AddClients(socks, offsets, next, ids); TablesAgree(r.0, r.1, r.2)
    decreases |ids|
  {
    if ids != [] {
      if ids[0] in socks {
        AddClientsAgree(socks, offsets, next, ids[1..]);
      } else {
        InsertClient(socks, offsets, next, ids[0]);
        AddClientsAgree(socks[ids[0] := next], offsets[next := 0], next + 1, ids[1..]);
      }
    }
  }

  lemma {:induction false} AddClientsKeys(socks: map<seq<char>, nat>, offsets: map<nat, int>, next: nat, ids: seq<seq<char>>)
    ensures AddClients(socks, offsets, next, ids).0.Keys == socks.Keys + Listed(ids)
    decreases |ids|
  {
    if ids != [] {
      ListedCons(ids);
      if ids[0] in socks {
        AddClientsKeys(socks, offsets, next, ids[1..]);
      } else {
        AddClientsKeys(socks[ids[0] := next], offsets[next := 0], next + 1, ids[1..]);
      }
    }
  }

  lemma {:induction false} AddClientsKeeps(socks: map<seq<char>, nat>, offsets: map<nat, int>, next: nat, ids: seq<seq<char>>)
    requires TablesAgree(socks, offsets, next)
    ensures var r := AddClients(socks, offsets, next, ids);
      forall id :: id in socks ==> id in r.0 && r.0[id] == socks[id] && socks[id] in r.1 && r.1[socks[id]] == offsets[socks[id]]
    decreases |ids|
  {
    if ids != [] {
      if ids[0] in socks {
        AddClientsKeeps(socks, offsets, next, ids[1..]);
      } else {
        InsertClient(socks, offsets, next, ids[0]);
        AddClientsKeeps(socks[ids[0] := next], offsets[next := 0], next + 1, ids[1..]);
      }
    }
  }

  lemma {:induction false} AddClientsFresh(socks: map<seq<char>, nat>, offsets: map<nat, int>, next: nat, ids: seq<seq<char>>)
    requires TablesAgree(socks, offsets, next)
    ensures var r := AddClients(socks, offsets, next, ids);
      forall id :: id in r.0 && id !in socks ==> r.0[id] in r.1 && r.1[r.0[id]] == 0
    decreases |ids|
  {
    if ids != [] {
      if ids[0] in socks {
        AddClientsFresh(socks, offsets, next, ids[1..]);
      } else {
        var s1, o1, n1 := socks[ids[0] := next], offsets[next := 0], next + 1;
        InsertClient(socks, offsets, next, ids[0]);
        AddClientsFresh(s1, o1, n1, ids[1..]);
        AddClientsKeeps(s1, o1, n1, ids[1..]);
        var r := AddClients(s1, o1, n1, ids[1..]);
        assert r == AddClients(socks, offsets, next, ids);
        assert ids[0] in s1 && r.0[ids[0]] == next && next in r.1 && r.1[next] == 0;
      }
    }
  }

  /** A new identity with the next socket number and offset 0 keeps the tables in agreement. */
  lemma InsertClient(socks: map<seq<char>, nat>, offsets: map<nat, int>, next: nat, id: seq<char>)
    requires TablesAgree(socks, offsets, next) && id !in socks
    ensures TablesAgree(socks[id := next], offsets[next := 0], next + 1)
    ensures forall x :: x in socks ==> offsets[next := 0][socks[x]] == offsets[socks[x]]
  {
    var s1, o1 := socks[id := next], offsets[next := 0];
    forall s | s in s1.Values ensures s in o1.Keys {
      var x :| x in s1 && s1[x] == s;
    }
    forall s | s in o1.Keys ensures s in s1.Values {
      if s != next {
        var x :| x in socks && socks[x] == s;
        assert s1[x] == s;
      } else {
        assert s1[id] == s;
      }
    }
  }

  /** The set of listed identities. */
  function Listed(ids: seq<seq<char>>): (r: set<seq<char>>)
    ensures forall id :: id in r <==> exists k :: 0 <= k < |ids| && ids[k] == id
  {
    set k | 0 <= k < |ids| :: ids[k]
  }

  lemma ListedCons(ids: seq<seq<char>>)
    requires ids != []
    ensures Listed(ids) == {ids[0]} + Listed(ids[1..])
  {
    forall id | id in Listed(ids) ensures id in {ids[0]} + Listed(ids[1..]) {
      var k :| 0 <= k < |ids| && ids[k] == id;
      if k > 0 { assert ids[1..][k - 1] == id; }
    }
  }

  lemma ListedSnoc(ids: seq<seq<char>>, id: seq<char>)
    ensures Listed(ids + [id]) == Listed(ids) + {id}
  {
    forall x | x in Listed(ids) ensures x in Listed(ids + [id]) {
      var k :| 0 <= k < |ids| && ids[k] == x;
      assert (ids + [id])[k] == x;
    }
    assert (ids + [id])[|ids|] == id;
  }

  /** Erasing keeps the tables in agreement, and keeps exactly the listed clients with their sockets and offsets. */
  lemma KeepListedProperties(socks: map<seq<char>, nat>, offsets: map<nat, int>, next: nat, clients: set<seq<char>>)
    requires TablesAgree(socks, offsets, next)
    ensures var r := KeepListed(socks, offsets, clients);
      && TablesAgree(r.0, r.1, next)
      && (forall id :: id in r.0 ==> r.0[id] == socks[id] && r.1[r.0[id]] == offsets[socks[id]])
  {
    var r := KeepListed(socks, offsets, clients);
    forall s | s in r.0.Values ensures s in r.1.Keys {
      var id :| id in r.0 && r.0[id] == s;
      assert s in socks.Values;
    }
  }

  /** The walk's invariant: the identities before `idx` are `seen`, and the list goes on from `idx`. */
  ghost predicate Walked(data: seq<char>, idx: nat, ids: seq<seq<char>>, seen: seq<seq<char>>)
  {
    idx < |data| && ClientList(data, idx).Some? && ids == seen + ClientList(data, idx).value
  }

  /** The walk's invariant, with the tables it has built so far. */
  ghost predicate WalkState(data: seq<char>, idx: nat, ids: seq<seq<char>>, seen: seq<seq<char>>, clients: set<seq<char>>,
                            socks: map<seq<char>, nat>, offsets: map<nat, int>, next: nat,
                            target: (map<seq<char>, nat>, map<nat, int>, nat))
  {
    && Walked(data, idx, ids, seen)
    && clients == Listed(seen)
    && AddClients(socks, offsets, next, ClientList(data, idx).value) == target
  }

  /** One step of the walk: the identity at `idx` is the next one listed. */
  lemma WalkStep(data: seq<char>, idx: nat, ids: seq<seq<char>>, seen: seq<seq<char>>, clients: set<seq<char>>,
                 socks: map<seq<char>, nat>, offsets: map<nat, int>, next: nat,
                 target: (map<seq<char>, nat>, map<nat, int>, nat), identity: seq<char>,
                 idx': nat, seen': seq<seq<char>>, clients': set<seq<char>>,
                 socks': map<seq<char>, nat>, offsets': map<nat, int>, next': nat)
    requires WalkState(data, idx, ids, seen, clients, socks, offsets, next, target) && data[idx] != NUL
    requires Terminated(data, idx) && identity == CString(data, idx)
    requires idx' == idx + |identity| + 1 && seen' == seen + [identity] && clients' == clients + {identity}
    requires (socks', offsets', next') == AddOne(socks, offsets, next, identity)
    ensures WalkState(data, idx', ids, seen', clients', socks', offsets', next', target)
  {
    var e := Find(data, idx, NUL).value;
    var rest := ClientList(data, e + 1).value;
    assert ClientList(data, idx).value == [identity] + rest;
    assert ([identity] + rest)[1..] == rest;
    ListedSnoc(seen, identity);
  }

  /** The end of the walk: every identity has been seen and added. */
  lemma WalkDone(data: seq<char>, idx: nat, ids: seq<seq<char>>, seen: seq<seq<char>>, clients: set<seq<char>>,
                 socks: map<seq<char>, nat>, offsets: map<nat, int>, next: nat,
                 target: (map<seq<char>, nat>, map<nat, int>, nat))
    requires WalkState(data, idx, ids, seen, clients, socks, offsets, next, target) && data[idx] == NUL
    ensures (socks, offsets, next) == target && clients == Listed(ids)
  {
    assert ClientList(data, idx).value == [];
    assert seen == ids;
  }

  /** Both passes: add the listed identities, then erase the unlisted ones. */
  function ApplyList(socks: map<seq<char>, nat>, offsets: map<nat, int>, next: nat, ids: seq<seq<char>>)
    : (map<seq<char>, nat>, map<nat, int>, nat)
  {
    var added := AddClients(socks, offsets, next, ids);
    var kept := KeepListed(added.0, added.1, Listed(ids));
    (kept.0, kept.1, added.2)
  }

  /**
   * After a client-list message, the known clients are exactly the listed
   * ones; a client that was known keeps its socket and write offset, and a
   * new one starts at offset 0.
   */
  lemma ClientListOutcome(socks: map<seq<char>, nat>, offsets: map<nat, int>, next: nat, ids: seq<seq<char>>)
    requires TablesAgree(socks, offsets, next)
    ensures var r := ApplyList(socks, offsets, next, ids);
      && TablesAgree(r.0, r.1, r.2)
      && (forall id :: id in r.0 <==> exists k :: 0 <= k < |ids| && ids[k] == id)
      && (forall id :: id in r.0 && id in socks ==> r.0[id] == socks[id] && r.1[socks[id]] == offsets[socks[id]])
      && (forall id :: id in r.0 && id !in socks ==> r.1[r.0[id]] == 0)
  {
    AddClientsProperties(socks, offsets, next, ids);
    var added := AddClients(socks, offsets, next, ids);
    KeepListedProperties(added.0, added.1, added.2, Listed(ids));
  }
}
