/**
 * Runs of the registry as a client sees them: each method drives the handlers
 * in sequence and asserts what the handlers' contracts then guarantee.
 */
module Scenarios {
  import opened RoomState
  import opened Server

  /** Two players join room "ABCD"; the second is not the host and its start is ignored. */
  method TwoPlayers() {
    var reg := new Registry();
    reg.JoinRoom("A", "ABCD");
    assert reg.log[1] == ToSocket("A", RoomJoined(true, 120.0, 4));
    assert reg.log[2] == ToRoom("ABCD", UserCount(1));
    reg.JoinRoom("B", "ABCD");
    assert reg.log[4] == ToSocket("B", RoomJoined(false, 120.0, 4));
    assert reg.log[5] == ToRoom("ABCD", UserCount(2));
    assert reg.rooms["ABCD"].users == ["A", "B"];
    assert reg.HostRoom("B") == None;
    reg.StartMetronome("B", 90.0, 4);
    assert !reg.rooms["ABCD"].isRunning && |reg.log| == 6;
  }

  /** The host starts at 60 bpm in 3/4: beats 0, 1, 2, 0 go out. */
  method PlayOneBar() {
    var reg := new Registry();
    reg.JoinRoom("A", "ABCD");
    assert reg.HostRoom("A") == Some("ABCD");
    reg.StartMetronome("A", 60.0, 3);
    assert reg.timers == map[1 := Timer("ABCD", 0, 0, 3)];
    reg.Tick(1);
    assert reg.log[|reg.log| - 1] == ToRoom("ABCD", Beat(0)) && reg.timers[1].beat == 1;
    reg.Tick(1);
    assert reg.log[|reg.log| - 1] == ToRoom("ABCD", Beat(1)) && reg.timers[1].beat == 2;
    reg.Tick(1);
    assert reg.log[|reg.log| - 1] == ToRoom("ABCD", Beat(2)) && reg.timers[1].beat == 0;
    reg.Tick(1);
    assert reg.log[|reg.log| - 1] == ToRoom("ABCD", Beat(0));
    assert reg.rooms["ABCD"].currentBeat == 1;
  }

  /** A stop after a single start cancels the only timer. */
  method StopAfterStart() {
    var reg := new Registry();
    reg.JoinRoom("A", "ABCD");
    assert reg.HostRoom("A") == Some("ABCD");
    reg.StartMetronome("A", 60.0, 3);
    assert reg.timers.Keys == {1} && reg.rooms["ABCD"].intervalId == Some(1);
    assert reg.HostRoom("A") == Some("ABCD");
    reg.StopMetronome("A");
    assert !reg.rooms["ABCD"].isRunning && reg.timers == map[];
  }

  /** The last member to leave deletes the room. */
  method LastLeaveDeletes() {
    var reg := new Registry();
    reg.JoinRoom("A", "ABCD");
    reg.JoinRoom("B", "ABCD");
    reg.LeaveRoom("A", "ABCD");
    assert reg.rooms["ABCD"].users == ["B"];
    reg.LeaveRoom("B", "ABCD");
    assert reg.rooms == map[] && reg.order == [];
  }

  /** A second start leaves the first timer live; the stop cancels only the second. */
  method RepeatedStartLeaksTimer() {
    var reg := new Registry();
    reg.JoinRoom("A", "R");
    assert reg.HostRoom("A") == Some("R");
    reg.StartMetronome("A", 100.0, 4);
    assert reg.HostRoom("A") == Some("R");
    reg.StartMetronome("A", 100.0, 2);
    assert 1 in reg.timers && 2 in reg.timers && reg.rooms["R"].intervalId == Some(2);
    assert reg.HostRoom("A") == Some("R");
    reg.StopMetronome("A");
    assert !reg.rooms["R"].isRunning;
    assert 2 !in reg.timers && reg.timers[1] == Timer("R", 0, 0, 4);
    // the leaked timer goes on beating into the stopped room
    reg.Tick(1);
    assert reg.log[|reg.log| - 1] == ToRoom("R", Beat(0));
    assert reg.rooms["R"].currentBeat == 1;
  }

  /** The host leaves a running room: the next member becomes host and playback goes on. */
  method HostLeavesWhileRunning() {
    var reg := new Registry();
    reg.JoinRoom("A", "R");
    reg.JoinRoom("B", "R");
    assert reg.rooms["R"].users == ["A", "B"];
    assert reg.HostRoom("A") == Some("R");
    reg.StartMetronome("A", 120.0, 4);
    assert reg.rooms["R"].isRunning && 1 in reg.timers;
    assert RemoveAll(["A", "B"], "A") == ["B"] by {
      assert ["A", "B"][1..] == ["B"] && ["B"][1..] == [];
    }
    reg.LeaveRoom("A", "R");
    assert reg.rooms["R"].users == ["B"] && reg.order == ["R"];
    assert reg.rooms["R"].isRunning && 1 in reg.timers;
    // the new host is obeyed
    assert FirstRoomWith(reg.rooms, reg.order, "B") == Some("R");
    assert reg.HostRoom("B") == Some("R");
    reg.StopMetronome("B");
    assert 1 !in reg.timers;
  }

  /** Joining twice lists the caller twice; one leave removes both entries. */
  method DuplicateJoin() {
    var reg := new Registry();
    reg.JoinRoom("A", "R");
    reg.JoinRoom("A", "R");
    assert reg.rooms["R"].users == ["A", "A"];
    assert reg.log[4] == ToSocket("A", RoomJoined(false, 120.0, 4));
    reg.JoinRoom("B", "R");
    assert reg.rooms["R"].users == ["A", "A", "B"];
    assert RemoveAll(["A", "A", "B"], "A") == ["B"] by {
      assert ["A", "A", "B"][1..] == ["A", "B"] && ["A", "B"][1..] == ["B"] && ["B"][1..] == [];
    }
    reg.LeaveRoom("A", "R");
    assert reg.rooms["R"].users == ["B"];
    assert reg.log[|reg.log| - 1] == ToRoom("R", UserCount(1));
  }

  /** A caller in two rooms leaves, on disconnect, only the room registered first. */
  method DisconnectLeavesFirstRoom() {
    var reg := new Registry();
    reg.JoinRoom("A", "X");
    reg.JoinRoom("B", "Y");
    assert reg.rooms["Y"].users == ["B"];
    reg.JoinRoom("A", "Y");
    assert reg.order == ["X", "Y"];
    assert reg.rooms["X"].users == ["A"] && reg.rooms["Y"].users == ["B", "A"];
    assert FirstRoomWith(reg.rooms, reg.order, "A") == Some("X");
    assert RemoveAll(["A"], "A") == [] by {
      assert ["A"][1..] == [];
    }
    ghost var y := reg.rooms["Y"];
    reg.Disconnect("A");
    assert "X" !in reg.rooms && reg.rooms["Y"] == y;
    assert "A" in reg.rooms["Y"].users;
  }

  /** Host commands are judged in the caller's first room, even when it hosts a later one. */
  method FirstRoomDecidesHost() {
    var reg := new Registry();
    reg.JoinRoom("B", "X");
    reg.JoinRoom("A", "Y");
    assert reg.rooms["Y"].users == ["A"];
    reg.JoinRoom("A", "X");
    assert reg.order == ["X", "Y"];
    assert reg.rooms["X"].users == ["B", "A"];
    assert reg.HostRoom("A") == None;
    reg.StartMetronome("A", 80.0, 4);
    assert !reg.rooms["Y"].isRunning && reg.timers == map[];
  }

  /** The host of the room whose code is the empty string is ignored: that code is falsy. */
  method EmptyCodeHost() {
    var reg := new Registry();
    reg.JoinRoom("A", "");
    assert reg.rooms[""].users[0] == "A";
    reg.StartMetronome("A", 100.0, 4);
    assert !reg.rooms[""].isRunning && reg.timers == map[];
  }

  /**
   * A room deleted with a leaked timer: the timer still multicasts to the code,
   * but a room created afresh under that code keeps its own beat.
   */
  method StaleTimerAfterRecreate() {
    var reg := new Registry();
    reg.JoinRoom("A", "R");
    assert reg.HostRoom("A") == Some("R");
    reg.StartMetronome("A", 100.0, 4);
    assert reg.HostRoom("A") == Some("R");
    reg.StartMetronome("A", 100.0, 4);
    assert reg.timers.Keys == {1, 2} && reg.rooms["R"].intervalId == Some(2);
    assert reg.rooms["R"].users == ["A"];
    assert RemoveAll(["A"], "A") == [] by {
      assert ["A"][1..] == [];
    }
    reg.LeaveRoom("A", "R");
    assert "R" !in reg.rooms && 1 in reg.timers;
    reg.JoinRoom("B", "R");
    assert reg.rooms["R"].incarnation == 3 && reg.timers[1].incarnation == 0;
    reg.Tick(1);
    assert reg.log[|reg.log| - 1] == ToRoom("R", Beat(0));
    assert reg.rooms["R"].currentBeat == 0;
  }
}
