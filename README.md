# Multi-room metronome server: a Dafny model

The server keeps a process-wide dictionary `rooms` from a room code to a room
record (`users`, `bpm`, `beatsPerBar`, `isRunning`, `currentBeat`,
`intervalId`). Socket events mutate it: `join-room` adds the caller,
`start-metronome`, `stop-metronome`, `update-bpm` and `update-timeSig` are
reserved to the host (`users[0]` of the caller's first room, a failed check
being a silent no-op), and `leave-room` and `disconnect` remove the caller.
A start arms an interval timer whose closure multicasts a `beat` and advances
the beat modulo the `beatsPerBar` it was started with.

The model has three modules:

- `RoomState` (`room_state.dfy`): the room record, the state a timer's closure
  captures, the outbound events and log entries, and the pure steps the
  handlers use: removing every occurrence of a member, finding the first room
  that lists a caller, cancelling a stored handle, one timer firing, and the
  beat sequence that firings emit.
- `Server` (`server.dfy`): class `Registry` holding the dictionary (`rooms`),
  the enumeration order of its keys (`order`), the live timers by handle
  (`timers`), the output log (`log`) and a counter for fresh handles and record
  identities (`serial`). Each socket handler is one method, since the event
  loop runs each handler to completion; a timer firing is the method `Tick`,
  callable on any live handle between handler steps. `Valid()` is the registry
  invariant: keys listed once in `order`, every registered room has at least
  one member, handles and identities are fresh, and a room's stored handle,
  while live, names a timer that room armed.
- `Scenarios` (`scenarios.dfy`): client runs that drive the handlers and assert
  what their contracts guarantee, among them the behaviours below.

`socket.join` and `io.to(code).emit` / `socket.emit` are appends to `log`
(`JoinGroup`, `ToRoom`, `ToSocket`). A room record's object identity,
which the timer closure captures, is the field `incarnation`; a firing writes
`currentBeat` only into the record that is still registered under that
identity (a write into a deleted record cannot be observed).

## Behaviour of the code as written

The model follows `server.js`, including where it departs from what the
design intends:

- Repeated starts keep the old timers. `start-metronome` stores the new handle
  over `intervalId` without cancelling the old one (server.js:55), and
  `stopRoom` cancels only the stored handle (server.js:120-121). After two
  starts and a stop, the first timer is still live and keeps beating
  (`Scenarios.RepeatedStartLeaksTimer`). So "running if and only if exactly one
  live timer" does not hold.
- A departing host does not stop playback. The host-departure test at
  server.js:114 runs after the caller was filtered out at server.js:109, so it
  can never succeed; `LeaveRoom` proves this branch dead with `assert false`
  (`Scenarios.HostLeavesWhileRunning`).
- Membership is not unique. `join-room` appends without checking
  (server.js:31), so a caller can be listed twice or in several rooms; lookups
  take the first room in enumeration order (server.js:91-95, 101-103), and
  host commands are judged there (`Scenarios.FirstRoomDecidesHost`,
  `Scenarios.DisconnectLeavesFirstRoom`).
- `currentBeat` need not stay below the room's `beatsPerBar`: `update-timeSig`
  leaves the running timer's modulus alone, and several live timers may write
  it in turn. What holds is that each firing writes a beat below its own
  timer's modulus (`Server.Registry.Tick`).
- The room whose code is the empty string has no host commands: the guard
  `!roomCode` (server.js:44, 68, 74, 81) treats `""` as no room
  (`Scenarios.EmptyCodeHost`).
- Timers left live when a room is deleted go on multicasting `beat` to its
  code, also after a new room is created under that code; they do not write
  the new room's `currentBeat` (`Scenarios.StaleTimerAfterRecreate`).

## Model

| member | source | states |
|---|---|---|
| `RoomState.RemoveAll` | server.js:109 | the filtered members are exactly the old members other than the caller; nothing changes when the caller is absent |
| `RoomState.RemoveAllCount` | server.js:109-110 | the count multicast after a leave is the old count minus the caller's occurrences |
| `RoomState.RemoveAllHead` | server.js:109 | after a leave the new `users[0]` is the first old member other than the caller, every earlier entry having been the caller |
| `RoomState.RemoveAllAppend` | server.js:109 | filtering commutes with appending a member at the end |
| `RoomState.JoinThenLeave` | server.js:109 | a newcomer's join followed by its leave restores the members |
| `RoomState.RemoveAllDistinct` | server.js:113 | removing a key keeps the key order duplicate-free |
| `RoomState.FirstRoomWith` | server.js:100-105 | the result is a registered room listing the caller, and it is None exactly when no room lists the caller |
| `RoomState.FirstRoomWithIsFirst` | server.js:101-102 | no room that lists the caller comes before the result in enumeration order |
| `RoomState.ClearTimer` | server.js:120-122 | cancelling removes only the stored handle, if any, and leaves the other timers unchanged |
| `RoomState.Step` | server.js:56-58 | a firing changes only the closure's beat, which becomes the next beat of the bar, wrapping to 0, and stays in `[0, beatsPerBar)` |
| `RoomState.Beats` | server.js:55-58 | n firings emit n beats, the first being the closure's current beat |
| `RoomState.BeatAt` | server.js:56-57 | firing k emits `(beat + k) % beatsPerBar` |
| `RoomState.BeatsCycle` | server.js:53-58 | the emitted beats count up from the closure's beat modulo the captured `beatsPerBar` |
| `RoomState.FreshTimerBeats` | server.js:53-58 | a timer armed at beat 0 emits 0, 1, ..., B-1, 0, ... |
| `Server.AddRoomValid` | server.js:20-31 | registering a new room under an unseen code, with its first member, keeps the registry invariant |
| `Server.DeleteRoomValid` | server.js:111-113 | deleting a room after cancelling its stored handle keeps the registry invariant |
| `Server.Registry.constructor` | server.js:13 | the server starts with no rooms, no timers and an empty log |
| `Server.Registry.HostRoom` | server.js:43-46 | a host command is obeyed only in the caller's first room, only when its code is non-empty and the caller is its `users[0]` |
| `Server.Registry.HostRoomOfSoleMember` | server.js:43-46 | a caller that is `users[0]` of a non-empty code and belongs to no other room is obeyed there |
| `Server.Registry.GetRoomCode` | server.js:100-105 | the loop returns the first room in enumeration order that lists the caller, and None exactly when no room does |
| `Server.Registry.ResolveHost` | server.js:43-46 | the guard of the host-only handlers yields exactly the room a host command acts on |
| `Server.Registry.UpdateUserCount` | server.js:131-133 | one `user-count` carrying the number of entries in `users` is multicast, state unchanged |
| `Server.Registry.JoinRoom` | server.js:18-40 | an unseen code gets a room with bpm 120, 4 beats per bar, stopped, beat 0, no stored handle, a fresh identity no live timer carries; an existing room changes only by the caller appended, `users[0]` unchanged; the caller is told it is host exactly when the room is new; the invariant is kept |
| `Server.Registry.StartMetronome` | server.js:42-64 | ignored unless the caller is host; otherwise sets bpm, beatsPerBar, running and beat 0, adds exactly one fresh timer at beat 0 with the given modulus, keeps every earlier timer, stores the new handle and multicasts one `update-state` |
| `Server.Registry.Tick` | server.js:55-59 | one firing multicasts the closure's beat, advances that timer alone, and writes the new beat, below the captured modulus, into the room only if that record is still registered |
| `Server.Registry.StopRoom` | server.js:119-129 | cancels the stored handle if live, sets the room stopped, leaves its other fields and all other timers unchanged, multicasts one `update-state` |
| `Server.Registry.StopMetronome` | server.js:66-70 | ignored unless the caller is host; otherwise has exactly the effect of `stopRoom` on the caller's room |
| `Server.Registry.UpdateBpm` | server.js:72-77 | ignored unless the caller is host; otherwise changes only `bpm`, leaves every timer unchanged and multicasts the tempo and the room's beats per bar |
| `Server.Registry.UpdateTimeSig` | server.js:79-84 | ignored unless the caller is host; otherwise changes only `beatsPerBar`, leaves every timer (so every running modulus) unchanged and multicasts the room's tempo and the new value |
| `Server.Registry.LeaveRoom` | server.js:107-117 | a no-op on an unknown code; otherwise removes every occurrence of the caller and multicasts the count; a room left empty is stopped and deleted; a room with members left changes only its users and keeps running as it was |
| `Server.Registry.DropRoom` | server.js:111-113 | an emptied room is stopped and its entry and key removed |
| `Server.Registry.Disconnect` | server.js:90-97 | leaves the first room in enumeration order that lists the caller, with the effect of `leaveRoom`, and changes nothing when no room lists it |

## Left out

- Express, http and socket.io setup, static file serving, `server.listen`, the
  port, the `connection` event and `console.log` (server.js:1-11, 15-16,
  135-138): transport and library plumbing.
- Real time: when a live timer fires, and the interval `60000 / bpm`
  (server.js:54). A live handle may fire at any point between handler steps,
  which is `Tick` on that handle.
- Concurrency: the event loop serialises handlers and firings, so each is one
  atomic method.
- Group membership of sockets: `socket.join` is only logged, `io.to(code)` is
  logged as addressed to the code, and the groups socket.io itself maintains
  (never left on `leave-room`, left on disconnect) are not tracked.
- Enumeration order of `rooms`: modelled as key insertion order. JavaScript
  lists codes that look like array indices (such as "1234") first, in
  ascending numeric order; that ordering is not modelled.
- Codes naming properties every JavaScript object inherits (such as
  "toString"), for which `!rooms[roomCode]` is false without an entry and the
  handler would throw: codes are treated as plain keys.
- Payload validation: codes and socket ids are strings, `bpm` a real number and
  `beatsPerBar` an integer; other JavaScript values are not modelled.
- Server.Registry.Tick: requires the timer's `beatsPerBar` to be positive; a
  timer armed with 0 or a negative value (JavaScript would emit NaN beats or
  count modulo its magnitude) is not fired.
- Server.Registry.Tick: the closure's write into a deleted room record is not
  kept, since no handler can read that record again.
- Process shutdown and the timers still live then.
