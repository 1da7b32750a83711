/** A GTPv2 connection and its sessions as objects, each method proved against
    the functions of modules `Registry` and `Sequence`. */
module Conn {
  import opened Octets
  import U = UPlane
  import Q = Sequence
  import opened Registry

  class Session {
    var imsi: string
    const peer: string
    var teids: map<byte, uint32>
    var tunnel: Tunnel
    var queue: seq<Passed>
    var active: bool

    constructor (peer: string, imsi: string)
      ensures Data() == NewSession(peer, imsi)
    {
      this.peer, this.imsi, teids, tunnel, queue, active := peer, imsi, map[], NO_TUNNEL, [], false;
    }

    function Data(): SessionData
      reads this
    {
      SessionData(imsi, peer, teids, tunnel, queue, active)
    }

    method AddTEID(ifType: byte, teid: uint32)
      modifies this
      ensures Data() == WithTEID(old(Data()), ifType, teid)
    {
      teids := teids[ifType := teid];
    }

    method GetTEID(ifType: byte) returns (r: Option<uint32>)
      ensures r == if ifType in teids then Some(teids[ifType]) else None
    {
      r := if ifType in teids then Some(teids[ifType]) else None;
    }

    method Activate() returns (ok: bool)
      modifies this
      ensures ok == (old(imsi) != "")
      ensures Data() == if ok then old(Data()).(active := true) else old(Data())
    {
      if imsi == "" {
        return false;
      }
      active := true;
      ok := true;
    }

    /** Fails when the queue stays full. */
    method PassMessageTo(msg: Passed) returns (ok: bool)
      modifies this
      ensures ok == (|old(queue)| < QUEUE_SIZE)
      ensures Data() == if ok then old(Data()).(queue := old(queue) + [msg]) else old(Data())
    {
      if |queue| >= QUEUE_SIZE {
        return false;
      }
      queue := queue + [msg];
      ok := true;
    }

    /** Takes the first message, or none when none comes in time.  A message with
        another number is taken all the same. */
    method WaitMessage(sequence: uint32, timeout: bool) returns (r: Result<Passed, WaitError>)
      modifies this
      ensures (r, Data()) == Waited(old(Data()), sequence, timeout)
    {
      if timeout || queue == [] {
        return Err(Timeout);
      }
      var msg := queue[0];
      queue := queue[1..];
      r := if msg.sequence != sequence then Err(InvalidSequence(msg.sequence)) else Ok(msg);
    }
  }

  class Conn {
    const localIfType: byte
    var sequence: uint32
    var imsiSessionMap: map<string, Session>
    var iteiSessionMap: map<uint32, Option<Session>>
    /** The sessions made for this connection so far, and what they hold. */
    ghost var made: map<Session, SessionData>

    ghost function Data(): ConnData<Session>
      reads this
    {
      ConnData(localIfType, sequence, imsiSessionMap, iteiSessionMap, made)
    }

    ghost predicate Synced(s: Session)
      requires s in made
      reads this, s
    {
      made[s] == s.Data()
    }

    ghost predicate Valid()
      reads this, made.Keys
    {
      Closed(Data()) && forall s :: s in made ==> Synced(s)
    }

    constructor (localIfType: byte)
      ensures Valid()
      ensures Data() == ConnData(localIfType, 0, map[], map[], map[])
    {
      this.localIfType, sequence, imsiSessionMap, iteiSessionMap, made := localIfType, 0, map[], map[], map[];
    }

    /** Notes a session that was made for this connection, or has changed. */
    ghost method Note(s: Session)
      requires Closed(Data()) && forall x :: x in made && x != s ==> Synced(x)
      modifies this`made
      ensures Valid() && Data() == Put(old(Data()), s, s.Data())
    {
      made := made[s := s.Data()];
    }

    method GetSessionByIMSI(imsi: string) returns (r: Option<Session>)
      requires Valid()
      ensures r == GetByIMSI(Data(), imsi) && (r.Some? ==> r.value in made)
    {
      r := None;
      if imsi in imsiSessionMap {
        r := Some(imsiSessionMap[imsi]);
      }
    }

    method GetSessionByTEID(teid: uint32, peer: string) returns (r: Outcome<Session, Error>)
      requires Valid()
      ensures r == GetByTEID(Data(), teid, peer) && (r.Done? ==> r.value in made)
    {
      if teid !in iteiSessionMap {
        return Fail(InvalidTEID);
      }
      var session := iteiSessionMap[teid];
      if session == None {
        return Panic;
      }
      assert Synced(session.value);
      if peer != session.value.peer {
        return Fail(InvalidTEID);
      }
      r := Done(session.value);
    }

    /** A message is let through to its handler exactly when it has version 2
        and its TEID is zero or finds a session of the sender; one that hits a
        reserved TEID brings the program down. */
    method Validate(version: nat, teid: uint32, sender: string) returns (r: Outcome<(), Error>)
      requires Valid()
      ensures r == if version == 2 && (teid == 0 || GetByTEID(Data(), teid, sender).Done?) then Done(())
                   else if version == 2 && teid in iteiSessionMap && iteiSessionMap[teid] == None then Panic
                   else Fail(InvalidTEID)
    {
      if version != 2 {
        return Fail(InvalidTEID);
      }
      if teid != 0 {
        var s := GetSessionByTEID(teid, sender);
        match s {
          case Fail(e) => return Fail(e);
          case Panic => return Panic;
          case Done(_) =>
        }
      }
      r := Done(());
    }

    method RegisterSession(itei: uint32, session: Session)
      requires Valid() && session in made
      modifies this`imsiSessionMap, this`iteiSessionMap, this`made, session
      ensures Valid() && Data() == Register(old(Data()), itei, session)
    {
      iteiSessionMap := iteiSessionMap[itei := Some(session)];
      imsiSessionMap := imsiSessionMap[session.imsi := session];
      session.AddTEID(localIfType, itei);
      Note(session);
    }

    /** False when the program panics. */
    method RemoveSession(session: Session) returns (ok: bool)
      requires Valid() && session in made
      modifies this`imsiSessionMap, this`iteiSessionMap
      ensures ok == Remove(old(Data()), session).Some?
      ensures ok ==> Valid() && Data() == Remove(old(Data()), session).value
    {
      assert Synced(session);
      imsiSessionMap := imsiSessionMap - {session.imsi};
      var itei := session.GetTEID(localIfType);
      if itei.Some? {
        iteiSessionMap := iteiSessionMap - {itei.value};
        return true;
      }
      ok := RemoveAllWith(session.imsi);
    }

    /** Walks through all TEIDs, in any order, and frees those whose session has
        the IMSI; a reserved TEID brings the program down. */
    method RemoveAllWith(imsi: string) returns (ok: bool)
      requires AllKnown(iteiSessionMap, made) && forall s :: s in made ==> Synced(s)
      modifies this`iteiSessionMap
      ensures ok == !SomeReserved(old(iteiSessionMap))
      ensures ok ==> iteiSessionMap == old(iteiSessionMap) - TEIDsFor(old(iteiSessionMap), made, imsi)
    {
      var all := iteiSessionMap;
      ghost var gone := TEIDsFor(all, made, imsi);
      var left := all.Keys;
      while left != {}
        invariant left <= all.Keys
        invariant iteiSessionMap == all - (gone - left)
        invariant forall t :: t in all && t !in left ==> all[t].Some?
      {
        var t :| t in left;
        var s := all[t];
        if s == None {
          return false;
        }
        assert Synced(s.value);
        if s.value.imsi == imsi {
          iteiSessionMap := iteiSessionMap - {t};
        }
        left := left - {t};
      }
      ok := true;
    }

    /** Tries one random number after another, 65535 at most. */
    method NewSenderFTEID(draws: seq<uint32>) returns (teid: Option<uint32>)
      requires Valid() && |draws| == 0xffff
      modifies this`iteiSessionMap
      ensures Valid() && (Data(), teid) == Reserve(old(Data()), draws)
    {
      teid := None;
      for try := 0 to 0xffff
        invariant iteiSessionMap == old(iteiSessionMap) && teid == None
        invariant U.FirstUsable(iteiSessionMap.Keys, draws) == U.FirstUsable(iteiSessionMap.Keys, draws[try..])
      {
        var t := draws[try];
        assert draws[try..][0] == t && draws[try..][1..] == draws[try + 1..];
        if t == 0 {
          continue;
        }
        if t in iteiSessionMap {
          continue;
        }
        iteiSessionMap := iteiSessionMap[t := None];
        teid := Some(t);
        break;
      }
    }

    method IncSequence() returns (s: uint32)
      modifies this`sequence
      ensures s == sequence == Q.Inc(old(sequence))
    {
      sequence := (sequence as int + 1) % 0x1_0000_0000;
      if sequence > 0xff_ffff {
        sequence := 0;
      }
      s := sequence;
    }

    method DecSequence() returns (s: uint32)
      modifies this`sequence
      ensures s == sequence == Q.Dec(old(sequence))
    {
      sequence := (sequence as int - 1) % 0x1_0000_0000;
      s := sequence;
    }

    /** The number the message carries, and the one returned, which after a
        failure is another. */
    method SendMessageTo(encodes: bool, written: bool) returns (carried: uint32, s: uint32, ok: bool)
      modifies this`sequence
      ensures ok == (encodes && written)
      ensures carried == Q.Inc(old(sequence)) && s == sequence == Q.Send(old(sequence), ok)
    {
      s := IncSequence();
      carried := s;
      if !encodes {
        s := DecSequence();
        return carried, s, false;
      }
      if !written {
        s := DecSequence();
        return carried, s, false;
      }
      ok := true;
    }
  }
}
