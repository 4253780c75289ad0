/** The extension tracker as the program keeps it, one critical section at a time
    (internal/app/server/extension.go:64-258). */
module ExtObject {
  import opened Text
  import opened ExtTracker

  lemma TouchIs(exts: Records, key: string, protocol: string, number: string, peer: string, r: Record)
    requires r == if key in exts then exts[key] else Record(number, protocol, "", None, None, "", 0, 0, 0, 0)
    ensures exts[key := r] == Touch(exts, key, protocol, number, "")
    ensures peer != "" ==> exts[key := r][key := r.(peer := peer)] == Touch(exts, key, protocol, number, peer)
    ensures key in exts ==> exts[key := r] == exts
  {
    assert exts[key := r][key := r.(peer := peer)] == exts[key := r.(peer := peer)];
  }

  class Tracker {
    var exts: Records
    var peers: map<string, string>
    var calls: map<string, Call>

    ghost function Abstract(): State
      reads this
    {
      State(exts, peers, calls)
    }

    ghost predicate Valid()
      reads this
    {
      Shape(Abstract())
    }

    constructor ()
      ensures Valid() && Abstract() == EMPTY
    {
      exts, peers, calls := map[], map[], map[];
    }

    /** recordLocked. */
    method RecordLocked(key: string, protocol: string, number: string, peer: string)
      modifies this
      ensures exts == Touch(old(exts), key, protocol, number, peer) && peers == Bind(old(peers), peer, key)
      ensures calls == old(calls)
    {
      if key !in exts {
        exts := exts[key := Record(number, protocol, "", None, None, "", 0, 0, 0, 0)];
      }
      ghost var r := exts[key];
      if peer != "" {
        exts := exts[key := exts[key].(peer := peer)];
        if |peers| >= MAX_PEERS {
          peers := map[];
        }
        peers := peers[peer := key];
      }
      TouchIs(old(exts), key, protocol, number, peer, r);
      hide Touch;
    }

    method MarkRegister(protocol: string, number: string, peer: string, now: int)
      requires Valid()
      modifies this
      ensures Valid() && Abstract() == Step(old(Abstract()), Register(protocol, number, peer, now))
    {
      StepShape(Abstract(), Register(protocol, number, peer, now));
      hide Shape, Touch, Bind;
      if number == "" {
        return;
      }
      var key := ExtKey(protocol, number);
      RecordLocked(key, protocol, number, peer);
      exts := Stamp(exts, key, now);
    }

    /** pendCall. */
    method PendCall(protocol: string, callKey: string, caller: string, callee: string, now: int)
        returns (ghost evict: string)
      requires Valid()
      modifies this
      ensures Valid() && var e := Pend(protocol, callKey, caller, callee, now, evict);
        Enabled(old(Abstract()), e) && Abstract() == Step(old(Abstract()), e)
    {
      hide Shape, ExtTracker.AddParty;
      evict := "";
      if callKey == "" || (caller == "" && callee == "") {
        return;
      }
      if callKey in calls {
        return;
      }
      var p := AddParty(Parties([], map[]), protocol, caller, callee);
      p := AddParty(p, protocol, callee, caller);
      if |p.keys| == 0 {
        return;
      }
      ghost var s := Abstract();
      calls := calls[callKey := Call(p.keys, p.peers, None, now)];
      TableSize(s, callKey, calls[callKey]);
      evict := PruneCallsLocked();
      StepShape(s, Pend(protocol, callKey, caller, callee, now, evict));
    }

    /** The add closure of pendCall. */
    method AddParty(p: Parties, protocol: string, self: string, other: string) returns (q: Parties)
      ensures q == ExtTracker.AddParty(exts.Keys, protocol, self, other, p)
    {
      q := p;
      if self == "" {
        return;
      }
      var key := ExtKey(protocol, self);
      if key !in exts {
        return;
      }
      var i := 0;
      while i < |p.keys|
        invariant 0 <= i <= |p.keys| && key !in p.keys[..i]
      {
        if p.keys[i] == key {
          return;
        }
        i := i + 1;
      }
      q := Parties(p.keys + [key], p.peers[key := other]);
    }

    /** pruneCallsLocked, with at most one call too many. */
    method PruneCallsLocked() returns (ghost evict: string)
      requires |calls| <= MAX_CALLS + 1 && "" !in calls
      modifies this`calls
      ensures EvictsOldest(old(calls), evict) && calls == Prune(old(calls), evict)
    {
      evict := "";
      while |calls| > MAX_CALLS
        invariant if |calls| > MAX_CALLS then calls == old(calls)
          else EvictsOldest(old(calls), evict) && calls == Prune(old(calls), evict)
        decreases |calls|
      {
        var oldestKey, oldest := "", 0;
        var keys := calls.Keys;
        while keys != {}
          invariant keys <= calls.Keys && calls == old(calls)
          invariant oldestKey == "" ==> keys == calls.Keys
          invariant oldestKey != "" ==> oldestKey in calls && oldest == calls[oldestKey].seen
          invariant oldestKey != "" ==> forall j :: j in calls && j !in keys ==> oldest <= calls[j].seen
          decreases keys
        {
          var k :| k in keys;
          keys := keys - {k};
          if oldestKey == "" || calls[k].seen < oldest {
            oldestKey, oldest := k, calls[k].seen;
          }
        }
        evict := oldestKey;
        assert (calls - {oldestKey}).Keys == calls.Keys - {oldestKey};
        calls := calls - {oldestKey};
      }
    }

    /** The loop of answerCall over the registered parties. */
    method CountParties(c: Call, now: int)
      requires |c.keys| <= 2 && (|c.keys| == 2 ==> c.keys[0] != c.keys[1])
      modifies this`exts
      ensures exts == Answered(old(exts), c, now)
    {
      ghost var exts0 := exts;
      var i := 0;
      while i < |c.keys|
        invariant 0 <= i <= |c.keys| && exts.Keys == exts0.Keys
        invariant forall k :: k in exts && k in c.keys[..i] ==> exts[k] == CountAnswer(c, now, k, exts0[k])
        invariant forall k :: k in exts && k !in c.keys[..i] ==> exts[k] == exts0[k]
      {
        hide CountAnswer;
        var key := c.keys[i];
        assert key !in c.keys[..i];
        if key in exts {
          exts := exts[key := CountAnswer(c, now, key, exts[key])];
        }
        i := i + 1;
      }
      assert c.keys[..i] == c.keys;
      assert exts == Answered(exts0, c, now);
    }

    /** answerCall. */
    method AnswerCall(callKey: string, now: int)
      requires Valid()
      modifies this
      ensures Valid() && Abstract() == Step(old(Abstract()), Answer(callKey, now))
    {
      StepShape(Abstract(), Answer(callKey, now));
      if callKey !in calls || calls[callKey].started.Some? {
        return;
      }
      var c := calls[callKey];
      assert CallShape(c, exts.Keys);
      hide Shape, Answered;
      calls := calls[callKey := c.(started := Some(now))];
      CountParties(c, now);
    }

    /** The loops over a call's keys that change every registered party's record alike. */
    method UpdateAll(keys: seq<string>, change: Record -> Record)
      requires |keys| <= 2 && (|keys| == 2 ==> keys[0] != keys[1])
      modifies this`exts
      ensures exts == Update(old(exts), keys, change)
    {
      ghost var exts0 := exts;
      var i := 0;
      while i < |keys|
        invariant 0 <= i <= |keys| && exts.Keys == exts0.Keys
        invariant forall k :: k in exts ==> exts[k] == if k in keys[..i] then change(exts0[k]) else exts0[k]
      {
        var key := keys[i];
        assert key !in keys[..i];
        if key in exts {
          exts := exts[key := change(exts[key])];
        }
        i := i + 1;
      }
      assert keys[..i] == keys;
      assert exts == Update(exts0, keys, change);
    }

    /** endCall. */
    method EndCall(callKey: string, now: int)
      requires Valid()
      modifies this
      ensures Valid() && Abstract() == Step(old(Abstract()), End(callKey, now))
    {
      hide Shape, Step, Update, MoreTalk, Seconds;
      StepShape(Abstract(), End(callKey, now));
      EndSteps(Abstract(), callKey, now);
      if callKey !in calls {
        return;
      }
      var c := calls[callKey];
      PartiesDistinct(Abstract(), callKey);
      calls := calls - {callKey};
      if c.started.None? {
        return;
      }
      var secs := Seconds(now - c.started.value);
      if secs <= 0 {
        return;
      }
      UpdateAll(c.keys, MoreTalk(secs));
    }

    /** addPeerBytes. */
    method AddPeerBytes(peer: string, inbound: bool, n: int)
      requires Valid()
      modifies this
      ensures Valid() && Abstract() == Step(old(Abstract()), PeerBytes(peer, inbound, n))
    {
      hide Shape, Step, Update, MoreBytes;
      StepShape(Abstract(), PeerBytes(peer, inbound, n));
      BytesSteps(Abstract(), peer, inbound, n);
      if n <= 0 || peer == "" {
        return;
      }
      if peer !in peers {
        return;
      }
      UpdateAll([peers[peer]], MoreBytes(inbound, n));
    }

    /** addCallBytes. */
    method AddCallBytes(callID: string, inbound: bool, n: int)
      requires Valid()
      modifies this
      ensures Valid() && Abstract() == Step(old(Abstract()), CallBytes(callID, inbound, n))
    {
      hide Shape, Step, Update, MoreBytes;
      StepShape(Abstract(), CallBytes(callID, inbound, n));
      BytesSteps(Abstract(), callID, inbound, n);
      if n <= 0 || callID == "" {
        return;
      }
      if callID !in calls {
        return;
      }
      PartiesDistinct(Abstract(), callID);
      UpdateAll(calls[callID].keys, MoreBytes(inbound, n));
    }
  }

  lemma PartiesDistinct(s: State, k: string)
    requires Shape(s) && k in s.calls
    ensures var keys := s.calls[k].keys; |keys| <= 2 && (|keys| == 2 ==> keys[0] != keys[1])
  {
    hide RecordsShape, PeersShape;
    assert CallShape(s.calls[k], s.exts.Keys);
  }

  /** The end of a call, case by case as endCall returns. */
  lemma EndSteps(s: State, k: string, now: int)
    ensures var s' := Step(s, End(k, now));
      if k !in s.calls then s' == s
      else
        var c := s.calls[k];
        && s'.calls == s.calls - {k} && s'.peers == s.peers
        && s'.exts == if c.started.None? || Seconds(now - c.started.value) == 0 then s.exts
                      else Update(s.exts, c.keys, MoreTalk(Seconds(now - c.started.value)))
  {
    hide Seconds;
    if k in s.calls { NoSeconds(s.exts, s.calls[k].keys); }
  }

  lemma BytesSteps(s: State, p: string, inbound: bool, n: int)
    ensures Step(s, PeerBytes(p, inbound, n)) ==
      if n <= 0 || p == "" || p !in s.peers then s
      else s.(exts := Update(s.exts, [s.peers[p]], MoreBytes(inbound, n)))
    ensures Step(s, CallBytes(p, inbound, n)) ==
      if n <= 0 || p == "" || p !in s.calls then s
      else s.(exts := Update(s.exts, s.calls[p].keys, MoreBytes(inbound, n)))
  {
    hide Update, MoreBytes;
  }

  lemma NoSeconds(exts: Records, keys: seq<string>)
    ensures Update(exts, keys, MoreTalk(0)) == exts
  {
  }

  lemma TableSize(s: State, callKey: string, c: Call)
    requires Shape(s) && callKey != ""
    ensures |s.calls[callKey := c]| <= MAX_CALLS + 1 && "" !in s.calls
  {
    hide CallShape;
    assert s.calls[callKey := c].Keys == s.calls.Keys + {callKey};
  }
}
