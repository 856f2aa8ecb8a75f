/**
 * The values the metronome server keeps: a room record, the state captured by a
 * beat timer's closure, the events it emits, and the pure steps on them
 * (filtering members out, finding a caller's room, one timer firing).
 */
module RoomState {

  datatype Option<T> = None | Some(value: T)

  type SocketId = string
  type Code = string
  type Handle = nat

  /** Settings of a room created by the first join to an unseen code. */
  const DefaultBpm: real := 120.0
  const DefaultBeatsPerBar: int := 4

  /**
   * A room record. `users[0]` is the host. `intervalId` is the last handle the
   * host's start stored (None until the first start). `incarnation` stands for
   * the identity of the record object, which a timer's closure captures.
   */
  datatype Room = Room(
    users: seq<SocketId>,
    bpm: real,
    beatsPerBar: int,
    isRunning: bool,
    currentBeat: int,
    intervalId: Option<Handle>,
    incarnation: nat)

  /**
   * What a live beat timer's closure holds: the room code it emits to, the
   * record it writes `currentBeat` into, its own `beat` counter, and the
   * `beatsPerBar` passed to the start that armed it.
   */
  datatype Timer = Timer(code: Code, incarnation: nat, beat: int, beatsPerBar: int)

  /** Payloads of the outbound events. */
  datatype Event =
    | RoomJoined(isHost: bool, bpm: real, beatsPerBar: int)
    | UserCount(count: nat)
    | Beat(beat: int)
    | UpdateState(bpm: real, beatsPerBar: int, isRunning: Option<bool>, currentBeat: Option<int>)

  /** One entry of the output log: a group join, a unicast, or a room multicast. */
  datatype Emission =
    | JoinGroup(socket: SocketId, code: Code)
    | ToSocket(socket: SocketId, event: Event)
    | ToRoom(code: Code, event: Event)

  predicate Distinct<T(==)>(s: seq<T>) {
    forall i, j :: 0 <= i < j < |s| ==> s[i] != s[j]
  }

  // ---------------------------------------------------------------------------
  // Removing a member: `users.filter(id => id !== socket.id)`

  /** `s` with every occurrence of `x` removed, the rest in order. */
  function RemoveAll(s: seq<string>, x: string): (r: seq<string>)
    ensures |r| <= |s|
    ensures forall y :: y in r <==> y in s && y != x
    ensures x !in s ==> r == s
  {
    if s == [] then []
    else if s[0] == x then RemoveAll(s[1..], x)
    else [s[0]] + RemoveAll(s[1..], x)
  }

  /** Every occurrence is removed: the length drops by the number of occurrences. */
  lemma {:induction false} RemoveAllCount(s: seq<string>, x: string)
    ensures |RemoveAll(s, x)| == |s| - multiset(s)[x]
  {
    if s != [] {
      RemoveAllCount(s[1..], x);
      assert s == [s[0]] + s[1..];
      assert multiset(s) == multiset{s[0]} + multiset(s[1..]);
    }
  }

  /**
   * The first element left is the first element of `s` that is not `x`: every
   * member before it in `s` was `x`. This is the host rule after a departure.
   */
  lemma {:induction false} RemoveAllHead(s: seq<string>, x: string)
    requires RemoveAll(s, x) != []
    ensures exists k :: 0 <= k < |s| && s[k] == RemoveAll(s, x)[0] && s[k] != x
                        && forall j :: 0 <= j < k ==> s[j] == x
  {
    if s[0] == x {
      RemoveAllHead(s[1..], x);
      var k :| 0 <= k < |s[1..]| && s[1..][k] == RemoveAll(s[1..], x)[0] && s[1..][k] != x
               && forall j :: 0 <= j < k ==> s[1..][j] == x;
      assert s[k + 1] == RemoveAll(s, x)[0];
      assert forall j :: 0 <= j < k + 1 ==> s[j] == x by {
        forall j | 0 <= j < k + 1 ensures s[j] == x {
          if j > 0 { assert s[j] == s[1..][j - 1]; }
        }
      }
    } else {
      assert s[0] == RemoveAll(s, x)[0];
    }
  }

  /** A member appended at the end is removed independently of the rest. */
  lemma {:induction false} RemoveAllAppend(s: seq<string>, x: string, y: string)
    ensures RemoveAll(s + [y], x) == RemoveAll(s, x) + (if y == x then [] else [y])
  {
    if s == [] {
      assert [] + [y] == [y];
      assert [y][1..] == [];
    } else {
      assert (s + [y])[1..] == s[1..] + [y];
      RemoveAllAppend(s[1..], x, y);
    }
  }

  /** A join by a newcomer followed by that newcomer's leave restores the members. */
  lemma JoinThenLeave(s: seq<string>, x: string)
    requires x !in s
    ensures RemoveAll(s + [x], x) == s
  {
    RemoveAllAppend(s, x, x);
  }

  /** Filtering keeps a duplicate-free sequence duplicate-free. */
  lemma {:induction false} RemoveAllDistinct(s: seq<string>, x: string)
    requires Distinct(s)
    ensures Distinct(RemoveAll(s, x))
  {
    if s != [] {
      assert Distinct(s[1..]) by {
        forall i, j | 0 <= i < j < |s[1..]| ensures s[1..][i] != s[1..][j] {
          assert s[1..][i] == s[i + 1] && s[1..][j] == s[j + 1];
        }
      }
      RemoveAllDistinct(s[1..], x);
      var rest := RemoveAll(s[1..], x);
      if s[0] != x {
        assert s[0] !in rest;
        forall i, j | 0 <= i < j < |[s[0]] + rest| ensures ([s[0]] + rest)[i] != ([s[0]] + rest)[j] {
          if i == 0 {
            assert ([s[0]] + rest)[j] == rest[j - 1] && rest[j - 1] in rest;
          } else {
            assert ([s[0]] + rest)[i] == rest[i - 1] && ([s[0]] + rest)[j] == rest[j - 1];
          }
        }
      }
    }
  }

  // ---------------------------------------------------------------------------
  // Finding a caller's room: the first room, in enumeration order, whose users
  // include the caller

  /** The first code of `order` naming a room in `rooms` whose users include `id`. */
  function FirstRoomWith(rooms: map<Code, Room>, order: seq<Code>, id: SocketId): (r: Option<Code>)
    ensures r.Some? ==> r.value in order && r.value in rooms && id in rooms[r.value].users
    ensures r.None? <==> forall k :: 0 <= k < |order| && order[k] in rooms ==> id !in rooms[order[k]].users
  {
    if order == [] then None
    else if order[0] in rooms && id in rooms[order[0]].users then Some(order[0])
    else
      assert forall k :: 1 <= k < |order| ==> order[k] == order[1..][k - 1];
      FirstRoomWith(rooms, order[1..], id)
  }

  /**
   * No room earlier in `order` holds `id`: whenever position `j` holds a room
   * with `id`, the answer occurs at or before `j`.
   */
  lemma {:induction false} FirstRoomWithIsFirst(rooms: map<Code, Room>, order: seq<Code>, id: SocketId, j: nat)
    requires j < |order| && order[j] in rooms && id in rooms[order[j]].users
    ensures FirstRoomWith(rooms, order, id).Some?
    ensures FirstRoomWith(rooms, order, id).value in order[..j + 1]
  {
    if !(order[0] in rooms && id in rooms[order[0]].users) {
      assert j > 0;
      assert order[1..][j - 1] == order[j];
      FirstRoomWithIsFirst(rooms, order[1..], id, j - 1);
      assert order[1..][..j] == order[1..j + 1];
    }
  }

  // ---------------------------------------------------------------------------
  // Cancelling a timer: `clearInterval(intervalId)` when a handle is stored

  /** The live timers after cancelling `handle`, if any; the others are untouched. */
  function ClearTimer(timers: map<Handle, Timer>, handle: Option<Handle>): (r: map<Handle, Timer>)
    ensures r.Keys == if handle.Some? then timers.Keys - {handle.value} else timers.Keys
    ensures forall h :: h in r ==> r[h] == timers[h]
  {
    if handle.Some? then timers - {handle.value} else timers
  }

  // ---------------------------------------------------------------------------
  // One firing of a timer: emit `beat`, then `beat := (beat + 1) % beatsPerBar`

  /** A timer's beat, in a bar of its own `beatsPerBar` (a timer armed with a non-positive one never leaves 0). */
  predicate InBar(t: Timer) {
    0 <= t.beat && (t.beat == 0 || t.beat < t.beatsPerBar)
  }

  /** The closure state after one firing. */
  function Step(t: Timer): (r: Timer)
    requires t.beatsPerBar > 0
    ensures r == t.(beat := r.beat)
    ensures 0 <= r.beat < t.beatsPerBar
    ensures InBar(t) ==> r.beat == if t.beat + 1 == t.beatsPerBar then 0 else t.beat + 1
  {
    t.(beat := (t.beat + 1) % t.beatsPerBar)
  }

  /** The beat indices emitted by `n` consecutive firings of one timer. */
  function Beats(t: Timer, n: nat): (r: seq<int>)
    requires t.beatsPerBar > 0
    ensures |r| == n
    ensures n > 0 ==> r[0] == t.beat
    decreases n
  {
    if n == 0 then [] else [t.beat] + Beats(Step(t), n - 1)
  }

  lemma ModOfBar(a: int, b: int)
    requires 0 <= a < b
    ensures a % b == a
  {
    var q := a / b;
    assert a == b * q + a % b;
  }

  lemma ModAddPeriod(a: int, b: int)
    requires b > 0
    ensures (a + b) % b == a % b
  {
    var q, q' := a / b, (a + b) / b;
    var d := q + 1 - q';
    assert b * d == b * q + b - b * q';
    // the two remainders differ by less than b, so the quotients differ by exactly one
    if d >= 1 {
      assert false;
    } else if d <= -1 {
      assert false;
    }
  }

  /** The beat emitted by firing `k` of `n`, counting from the timer's beat modulo its bar. */
  lemma {:induction false} BeatAt(t: Timer, n: nat, k: nat)
    requires t.beatsPerBar > 0 && 0 <= t.beat < t.beatsPerBar && k < n
    ensures Beats(t, n)[k] == (t.beat + k) % t.beatsPerBar
    decreases k
  {
    var b := t.beatsPerBar;
    if k == 0 {
      ModOfBar(t.beat, b);
    } else {
      var t' := Step(t);
      BeatAt(t', n - 1, k - 1);
      assert Beats(t, n)[k] == Beats(t', n - 1)[k - 1];
      if t.beat + 1 == b {
        ModAddPeriod(k - 1, b);
        assert t.beat + k == (k - 1) + b;
      }
    }
  }

  /** Firing by firing, the emitted beats count up from the timer's beat modulo its bar. */
  lemma BeatsCycle(t: Timer, n: nat)
    requires t.beatsPerBar > 0 && 0 <= t.beat < t.beatsPerBar
    ensures forall k :: 0 <= k < n ==> Beats(t, n)[k] == (t.beat + k) % t.beatsPerBar
  {
    forall k | 0 <= k < n ensures Beats(t, n)[k] == (t.beat + k) % t.beatsPerBar {
      BeatAt(t, n, k);
    }
  }

  /** A freshly armed timer (beat 0) emits 0, 1, ..., B-1, 0, 1, ... */
  lemma FreshTimerBeats(t: Timer, n: nat)
    requires t.beatsPerBar > 0 && t.beat == 0
    ensures forall k :: 0 <= k < n ==> Beats(t, n)[k] == k % t.beatsPerBar
  {
    BeatsCycle(t, n);
  }
}
