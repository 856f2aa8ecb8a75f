/**
 * The metronome server's room registry and its socket event handlers. Each
 * handler, and each firing of a beat timer, runs to completion on the single
 * event loop, so each is one method on the registry.
 */
module Server {
  import opened RoomState

  /** A room record is well formed: it has members, and its identities were handed out. */
  predicate RoomValid(r: Room, serial: nat) {
    && |r.users| > 0
    && r.incarnation < serial
    && (r.intervalId.Some? ==> r.intervalId.value < serial)
  }

  /** The registry invariant, on the values of the registry's fields. */
  ghost predicate StateValid(rooms: map<Code, Room>, order: seq<Code>, timers: map<Handle, Timer>, serial: nat) {
    && Distinct(order)
    && (forall c :: c in rooms <==> c in order)
    && (forall c :: c in rooms ==> RoomValid(rooms[c], serial))
    && (forall h :: h in timers ==> h < serial && timers[h].incarnation < serial && InBar(timers[h]))
    // the handle a room stores, while live, is a timer that room armed
    && (forall c :: c in rooms && rooms[c].intervalId.Some? && rooms[c].intervalId.value in timers ==>
          timers[rooms[c].intervalId.value].code == c &&
          timers[rooms[c].intervalId.value].incarnation == rooms[c].incarnation)
  }

  /** Replacing a room's members by a non-empty sequence keeps the invariant. */
  lemma SetUsersValid(rooms: map<Code, Room>, order: seq<Code>, timers: map<Handle, Timer>, serial: nat,
                      code: Code, users: seq<SocketId>)
    requires StateValid(rooms, order, timers, serial) && code in rooms && |users| > 0
    ensures StateValid(rooms[code := rooms[code].(users := users)], order, timers, serial)
  {
  }

  /** Registering a fresh room under an unseen code, with one member, keeps the invariant. */
  lemma AddRoomValid(rooms: map<Code, Room>, order: seq<Code>, timers: map<Handle, Timer>, serial: nat,
                     code: Code, id: SocketId)
    requires StateValid(rooms, order, timers, serial) && code !in rooms
    ensures StateValid(rooms[code := Room([id], DefaultBpm, DefaultBeatsPerBar, false, 0, None, serial)],
                       order + [code], timers, serial + 1)
  {
    assert Distinct(order + [code]) by {
      forall i, j | 0 <= i < j < |order| + 1 ensures (order + [code])[i] != (order + [code])[j] {
        if j == |order| { assert order[i] in order; }
      }
    }
  }

  /** Deleting a room, after cancelling its stored timer, keeps the invariant. */
  lemma DeleteRoomValid(rooms: map<Code, Room>, order: seq<Code>, timers: map<Handle, Timer>, serial: nat,
                        code: Code)
    requires StateValid(rooms, order, timers, serial) && code in rooms
    ensures StateValid(rooms - {code}, RemoveAll(order, code), ClearTimer(timers, rooms[code].intervalId), serial)
  {
    RemoveAllDistinct(order, code);
  }

  class Registry {
    /** The process-wide dictionary from room code to room record. */
    var rooms: map<Code, Room>
    /** The enumeration order of the dictionary's keys: insertion order. */
    var order: seq<Code>
    /** The live interval timers, by handle. */
    var timers: map<Handle, Timer>
    /** Everything emitted so far, oldest first. */
    var log: seq<Emission>
    /** The next fresh timer handle or record identity. */
    var serial: nat

    ghost predicate Valid()
      reads this
    {
      StateValid(rooms, order, timers, serial)
    }

    /** The server at start-up: no rooms, no timers, nothing emitted. */
    constructor ()
      ensures Valid()
      ensures rooms == map[] && order == [] && timers == map[] && log == [] && serial == 0
    {
      rooms, order, timers, log, serial := map[], [], map[], [], 0;
    }

    /**
     * The room a host-only command from `id` acts on: the caller's first room,
     * provided its code is not the (falsy) empty string and the caller is its
     * first member. None means the command is ignored.
     */
    ghost function HostRoom(id: SocketId): (r: Option<Code>)
      reads this
      requires Valid()
      ensures r.Some? ==> r.value in rooms && r.value != "" && rooms[r.value].users[0] == id
      ensures r.Some? ==> r == FirstRoomWith(rooms, order, id)
      ensures var f := FirstRoomWith(rooms, order, id);
        f.Some? && f.value != "" && rooms[f.value].users[0] == id ==> r == f
    {
      match FirstRoomWith(rooms, order, id)
      case None => None
      case Some(c) => if c == "" || rooms[c].users[0] != id then None else Some(c)
    }

    /** A host whose room is the only one it belongs to is obeyed in that room. */
    lemma HostRoomOfSoleMember(id: SocketId, c: Code)
      requires Valid()
      requires c in rooms && c != "" && rooms[c].users[0] == id
      requires forall c' :: c' in rooms && c' != c ==> id !in rooms[c'].users
      ensures HostRoom(id) == Some(c)
    {
      var j :| 0 <= j < |order| && order[j] == c;
      FirstRoomWithIsFirst(rooms, order, id, j);
    }

    /** `getRoomCode`: the first room, in enumeration order, whose users include `id`. */
    method GetRoomCode(id: SocketId) returns (code: Option<Code>)
      requires Valid()
      ensures code == FirstRoomWith(rooms, order, id)
      ensures code.Some? ==> code.value in rooms && id in rooms[code.value].users
      ensures code.None? <==> forall c :: c in rooms ==> id !in rooms[c].users
    {
      var i := 0;
      while i < |order|
        invariant 0 <= i <= |order|
        invariant FirstRoomWith(rooms, order[i..], id) == FirstRoomWith(rooms, order, id)
      {
        var c := order[i];
        assert order[i..][1..] == order[i + 1..];
        if id in rooms[c].users {
          return Some(c);
        }
        i := i + 1;
      }
      return None;
    }

    /** The guard shared by the host-only handlers. */
    method ResolveHost(id: SocketId) returns (code: Option<Code>)
      requires Valid()
      ensures code == HostRoom(id)
    {
      code := GetRoomCode(id);
      if code.None? || code.value == "" || rooms[code.value].users[0] != id {
        code := None;
      }
    }

    /** `updateUserCount`: multicast the room's member count. */
    method UpdateUserCount(code: Code)
      requires code in rooms
      modifies this
      ensures rooms == old(rooms) && order == old(order) && timers == old(timers) && serial == old(serial)
      ensures log == old(log) + [ToRoom(code, UserCount(|rooms[code].users|))]
    {
      log := log + [ToRoom(code, UserCount(|rooms[code].users|))];
    }

    /**
     * `join-room`: create the room with default settings if the code is unseen,
     * append the caller (even if already a member), tell the caller whether it
     * is the host, and multicast the new count.
     */
    method JoinRoom(id: SocketId, code: Code)
      requires Valid()
      modifies this
      ensures Valid()
      ensures timers == old(timers)
      ensures code in old(rooms) ==>
        && rooms == old(rooms)[code := old(rooms[code]).(users := old(rooms[code].users) + [id])]
        && rooms[code].users[0] == old(rooms[code].users[0])
        && order == old(order) && serial == old(serial)
      ensures code !in old(rooms) ==>
        && rooms == old(rooms)[code := Room([id], DefaultBpm, DefaultBeatsPerBar, false, 0, None, old(serial))]
        && order == old(order) + [code] && serial == old(serial) + 1
        && forall h :: h in timers ==> timers[h].incarnation != rooms[code].incarnation
      ensures log == old(log) + [
        JoinGroup(id, code),
        ToSocket(id, RoomJoined(code !in old(rooms), rooms[code].bpm, rooms[code].beatsPerBar)),
        ToRoom(code, UserCount(|rooms[code].users|))]
    {
      log := log + [JoinGroup(id, code)];
      var room: Room;
      if code in rooms {
        room := rooms[code];
        SetUsersValid(rooms, order, timers, serial, code, room.users + [id]);
      } else {
        // the record created for an unseen code
        room := Room([], DefaultBpm, DefaultBeatsPerBar, false, 0, None, serial);
        AddRoomValid(rooms, order, timers, serial, code, id);
        assert room.users + [id] == [id];
        order := order + [code];
        serial := serial + 1;
      }
      var isHost := |room.users| == 0;
      rooms := rooms[code := room.(users := room.users + [id])];
      log := log + [ToSocket(id, RoomJoined(isHost, room.bpm, room.beatsPerBar))];
      UpdateUserCount(code);
    }

    /**
     * `start-metronome`, host only: store the new settings, arm a fresh timer
     * whose closure starts at beat 0 with this `beatsPerBar`, store its handle
     * over the previous one (which is not cancelled), multicast the state.
     */
    method StartMetronome(id: SocketId, bpm: real, beatsPerBar: int)
      requires Valid()
      modifies this
      ensures Valid()
      ensures old(HostRoom(id)).None? ==> unchanged(this)
      ensures old(HostRoom(id)).Some? ==>
        var c, h := old(HostRoom(id)).value, old(serial);
        var r := old(rooms[c]);
        && h !in old(timers) && serial == h + 1 && order == old(order)
        && rooms == old(rooms)[c := r.(bpm := bpm, beatsPerBar := beatsPerBar, isRunning := true,
                                       currentBeat := 0, intervalId := Some(h))]
        && timers == old(timers)[h := Timer(c, r.incarnation, 0, beatsPerBar)]
        && timers.Keys == old(timers).Keys + {h}
        && log == old(log) + [ToRoom(c, UpdateState(bpm, beatsPerBar, Some(true), Some(0)))]
    {
      var code := ResolveHost(id);
      if code.None? {
        return;
      }
      var c := code.value;
      var room := rooms[c].(bpm := bpm, beatsPerBar := beatsPerBar, isRunning := true, currentBeat := 0);
      var h := serial;
      serial := serial + 1;
      timers := timers[h := Timer(c, room.incarnation, 0, beatsPerBar)];
      rooms := rooms[c := room.(intervalId := Some(h))];
      log := log + [ToRoom(c, UpdateState(bpm, beatsPerBar, Some(true), Some(0)))];
    }

    /**
     * One firing of timer `h` (the closure armed by a start): multicast its
     * beat, advance its beat modulo its own `beatsPerBar`, and write the new
     * beat into the record it captured, if that record is still registered.
     */
    method Tick(h: Handle)
      requires Valid()
      requires h in timers && timers[h].beatsPerBar > 0
      modifies this
      ensures Valid()
      ensures var t := old(timers[h]);
        && timers == old(timers)[h := Step(t)]
        && log == old(log) + [ToRoom(t.code, Beat(t.beat))]
        && order == old(order) && serial == old(serial)
        && rooms == (if t.code in old(rooms) && old(rooms[t.code]).incarnation == t.incarnation
                     then old(rooms)[t.code := old(rooms[t.code]).(currentBeat := Step(t).beat)]
                     else old(rooms))
      ensures var t := old(timers[h]);
        t.code in rooms && rooms[t.code].incarnation == t.incarnation ==>
          0 <= rooms[t.code].currentBeat < t.beatsPerBar
    {
      var t := timers[h];
      log := log + [ToRoom(t.code, Beat(t.beat))];
      var next := Step(t);
      timers := timers[h := next];
      if t.code in rooms && rooms[t.code].incarnation == t.incarnation {
        rooms := rooms[t.code := rooms[t.code].(currentBeat := next.beat)];
      }
    }

    /**
     * `stopRoom`: cancel the stored handle, if any, mark the room stopped and
     * multicast the state. Earlier handles of the room stay live.
     */
    method StopRoom(code: Code)
      requires code in rooms
      modifies this
      ensures rooms == old(rooms)[code := old(rooms[code]).(isRunning := false)]
      ensures timers == ClearTimer(old(timers), old(rooms[code].intervalId))
      ensures order == old(order) && serial == old(serial)
      ensures log == old(log) + [ToRoom(code, UpdateState(old(rooms[code].bpm), old(rooms[code].beatsPerBar),
                                                          Some(false), None))]
    {
      var room := rooms[code];
      if room.intervalId.Some? {
        timers := ClearTimer(timers, room.intervalId);
      }
      rooms := rooms[code := room.(isRunning := false)];
      log := log + [ToRoom(code, UpdateState(room.bpm, room.beatsPerBar, Some(false), None))];
    }

    /** `stop-metronome`, host only. */
    method StopMetronome(id: SocketId)
      requires Valid()
      modifies this
      ensures Valid()
      ensures old(HostRoom(id)).None? ==> unchanged(this)
      ensures old(HostRoom(id)).Some? ==>
        var c := old(HostRoom(id)).value;
        var r := old(rooms[c]);
        && rooms == old(rooms)[c := r.(isRunning := false)]
        && timers == ClearTimer(old(timers), r.intervalId)
        && order == old(order) && serial == old(serial)
        && log == old(log) + [ToRoom(c, UpdateState(r.bpm, r.beatsPerBar, Some(false), None))]
    {
      var code := ResolveHost(id);
      if code.None? {
        return;
      }
      StopRoom(code.value);
    }

    /** `update-bpm`, host only: store the tempo; the running timers are left as they are. */
    method UpdateBpm(id: SocketId, bpm: real)
      requires Valid()
      modifies this
      ensures Valid()
      ensures old(HostRoom(id)).None? ==> unchanged(this)
      ensures old(HostRoom(id)).Some? ==>
        var c := old(HostRoom(id)).value;
        var r := old(rooms[c]);
        && rooms == old(rooms)[c := r.(bpm := bpm)]
        && timers == old(timers) && order == old(order) && serial == old(serial)
        && log == old(log) + [ToRoom(c, UpdateState(bpm, r.beatsPerBar, None, None))]
    {
      var code := ResolveHost(id);
      if code.None? {
        return;
      }
      var c := code.value;
      rooms := rooms[c := rooms[c].(bpm := bpm)];
      log := log + [ToRoom(c, UpdateState(bpm, rooms[c].beatsPerBar, None, None))];
    }

    /**
     * `update-timeSig`, host only: store `beatsPerBar`; the running timers keep
     * the modulus they were armed with.
     */
    method UpdateTimeSig(id: SocketId, beats: int)
      requires Valid()
      modifies this
      ensures Valid()
      ensures old(HostRoom(id)).None? ==> unchanged(this)
      ensures old(HostRoom(id)).Some? ==>
        var c := old(HostRoom(id)).value;
        var r := old(rooms[c]);
        && rooms == old(rooms)[c := r.(beatsPerBar := beats)]
        && timers == old(timers) && order == old(order) && serial == old(serial)
        && log == old(log) + [ToRoom(c, UpdateState(r.bpm, beats, None, None))]
    {
      var code := ResolveHost(id);
      if code.None? {
        return;
      }
      var c := code.value;
      rooms := rooms[c := rooms[c].(beatsPerBar := beats)];
      log := log + [ToRoom(c, UpdateState(rooms[c].bpm, beats, None, None))];
    }

    /**
     * What `leaveRoom(id, code)` does: nothing for an unknown code; otherwise
     * every occurrence of `id` leaves the users and the count is multicast; a
     * room left empty is stopped and deleted, and a room with members left
     * keeps running as it was.
     */
    twostate predicate LeaveEffect(id: SocketId, code: Code)
      reads this
    {
      && serial == old(serial)
      && (code !in old(rooms) ==>
            rooms == old(rooms) && order == old(order) && timers == old(timers) && log == old(log))
      && (code in old(rooms) ==>
            var r := old(rooms[code]);
            var rest := RemoveAll(r.users, id);
            if rest == [] then
              && rooms == old(rooms) - {code}
              && order == RemoveAll(old(order), code)
              && timers == ClearTimer(old(timers), r.intervalId)
              && log == old(log) + [ToRoom(code, UserCount(0)),
                                    ToRoom(code, UpdateState(r.bpm, r.beatsPerBar, Some(false), None))]
            else
              && rooms == old(rooms)[code := r.(users := rest)]
              && order == old(order) && timers == old(timers)
              && log == old(log) + [ToRoom(code, UserCount(|rest|))])
    }

    /** `leaveRoom`, reached from `leave-room` with the code the client names. */
    method LeaveRoom(id: SocketId, code: Code)
      requires Valid()
      modifies this
      ensures Valid()
      ensures LeaveEffect(id, code)
      ensures code in old(rooms) && code in rooms ==>
        && id !in rooms[code].users
        && rooms[code].isRunning == old(rooms[code].isRunning)
        && rooms[code].intervalId == old(rooms[code].intervalId)
    {
      if code !in rooms {
        return;
      }
      var room := rooms[code];
      var rest := RemoveAll(room.users, id);
      if rest == [] {
        DeleteRoomValid(rooms, order, timers, serial, code);
      } else {
        SetUsersValid(rooms, order, timers, serial, code, rest);
      }
      rooms := rooms[code := room.(users := rest)];
      UpdateUserCount(code);
      if |rooms[code].users| == 0 {
        DropRoom(code);
        assert rooms == old(rooms) - {code};
        assert log == old(log) + [ToRoom(code, UserCount(0)),
                                  ToRoom(code, UpdateState(room.bpm, room.beatsPerBar, Some(false), None))];
      } else if rooms[code].users[0] == id {
        // the departing id was filtered out just above, so this host-departure branch never runs
        assert false;
      } else {
        assert log == old(log) + [ToRoom(code, UserCount(|rest|))];
      }
    }

    /** The last member is gone: stop the room, then delete its entry. */
    method DropRoom(code: Code)
      requires code in rooms
      modifies this
      ensures rooms == old(rooms) - {code}
      ensures order == RemoveAll(old(order), code)
      ensures timers == ClearTimer(old(timers), old(rooms[code].intervalId))
      ensures serial == old(serial)
      ensures log == old(log) + [ToRoom(code, UpdateState(old(rooms[code].bpm), old(rooms[code].beatsPerBar),
                                                          Some(false), None))]
    {
      StopRoom(code);
      rooms := rooms - {code};
      order := RemoveAll(order, code);
    }

    /** `disconnect`: leave the first room, in enumeration order, that lists the caller. */
    method Disconnect(id: SocketId)
      requires Valid()
      modifies this
      ensures Valid()
      ensures FirstRoomWith(old(rooms), old(order), id).None? ==> unchanged(this)
      ensures FirstRoomWith(old(rooms), old(order), id).Some? ==>
        LeaveEffect(id, FirstRoomWith(old(rooms), old(order), id).value)
    {
      var code := GetRoomCode(id);
      if code.Some? {
        LeaveRoom(id, code.value);
      }
    }
  }
}
