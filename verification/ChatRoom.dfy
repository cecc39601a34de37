/** The chat server's membership protocol: sessions that join in their constructor and leave in their
    destructor, broadcasts that snapshot a room and then send, and every way these can interleave. */
module ChatRoom {
  import opened Basics

  type RoomId = string

  /** Under construction; in its room but not yet owned by a shared pointer; owned and running; no owner
      left but the destructor has not run yet. */
  datatype Phase = Constructing | Joined | Running | Expired

  /** An object in memory. Addresses are reused, serial numbers are not: a weak pointer is a serial number. */
  datatype Session = Session(serial: nat, room: RoomId, phase: Phase)

  /** A broadcast after its snapshot: who is still to be sent to, and who could not be locked. */
  datatype Cast = Cast(sender: nat, room: RoomId, text: string, audience: set<nat>, left: set<nat>, missed: set<nat>)

  /** `inbox` holds, for each session ever made, the broadcasts queued for it in order. */
  datatype World = World(memory: map<nat, Session>, rooms: map<RoomId, set<nat>>, next: nat,
                         casts: map<nat, Cast>, inbox: map<nat, seq<nat>>)

  const EMPTY := World(map[], map[], 0, map[], map[])

  datatype Op =
    | Construct(at: nat, room: RoomId)
    | Join(at: nat)
    | Publish(at: nat)
    | Snapshot(at: nat, cast: nat, text: string)
    | Send(cast: nat, to: nat)
    | Expire(at: nat)
    | Leave(at: nat)

  // ---------------------------------------------------------------- the room table

  function JoinRoom(rooms: map<RoomId, set<nat>>, room: RoomId, at: nat): map<RoomId, set<nat>> {
    rooms[room := Members(rooms, room) + {at}]
  }

  /** A room whose last member leaves is closed. */
  function LeaveRoom(rooms: map<RoomId, set<nat>>, room: RoomId, at: nat): map<RoomId, set<nat>> {
    if room !in rooms then rooms
    else if rooms[room] - {at} == {} then rooms - {room}
    else rooms[room := rooms[room] - {at}]
  }

  /** What `rooms_[room]` leaves behind: a missing room is inserted, empty. */
  function TouchRoom(rooms: map<RoomId, set<nat>>, room: RoomId): map<RoomId, set<nat>> {
    if room in rooms then rooms else rooms[room := {}]
  }

  function Members(rooms: map<RoomId, set<nat>>, room: RoomId): set<nat> {
    if room in rooms then rooms[room] else {}
  }

  /** The weak pointers a snapshot takes: a session that is not yet owned has none to give. */
  function Owned(memory: map<nat, Session>, members: set<nat>): set<nat> {
    set a | a in members && a in memory && (memory[a].phase == Running || memory[a].phase == Expired) ::
      memory[a].serial
  }

  predicate Lockable(w: World, serial: nat) {
    exists a | a in w.memory :: w.memory[a].serial == serial && w.memory[a].phase == Running
  }

  // ---------------------------------------------------------------- the steps

  predicate At(w: World, a: nat, phase: Phase) {
    a in w.memory && w.memory[a].phase == phase
  }

  predicate Enabled(w: World, op: Op) {
    match op
    case Construct(a, _) => a !in w.memory
    case Join(a) => At(w, a, Constructing)
    case Publish(a) => At(w, a, Joined)
    case Snapshot(a, c, _) => At(w, a, Running) && c !in w.casts
    case Send(c, s) => c in w.casts && s in w.casts[c].left
    case Expire(a) => At(w, a, Running)
    case Leave(a) => At(w, a, Expired)
  }

  function Moved(w: World, a: nat, phase: Phase): map<nat, Session>
    requires a in w.memory
  {
    w.memory[a := w.memory[a].(phase := phase)]
  }

  function Sent(w: World, c: nat, s: nat): World
    requires c in w.casts && s in w.casts[c].left
  {
    var cast := w.casts[c].(left := w.casts[c].left - {s});
    if Lockable(w, s) && s in w.inbox then
      w.(casts := w.casts[c := cast], inbox := w.inbox[s := w.inbox[s] + [c]])
    else
      w.(casts := w.casts[c := cast.(missed := cast.missed + {s})])
  }

  function Apply(w: World, op: Op): World
    requires Enabled(w, op)
  {
    match op
    case Construct(a, room) =>
      w.(memory := w.memory[a := Session(w.next, room, Constructing)], next := w.next + 1,
         inbox := w.inbox[w.next := []])
    case Join(a) => w.(rooms := JoinRoom(w.rooms, w.memory[a].room, a), memory := Moved(w, a, Joined))
    case Publish(a) => w.(memory := Moved(w, a, Running))
    case Snapshot(a, c, text) =>
      var room := w.memory[a].room;
      var owned := Owned(w.memory, Members(w.rooms, room));
      w.(rooms := TouchRoom(w.rooms, room),
         casts := w.casts[c := Cast(w.memory[a].serial, room, text, owned, owned, {})])
    case Send(c, s) => Sent(w, c, s)
    case Expire(a) => w.(memory := Moved(w, a, Expired))
    case Leave(a) => w.(rooms := LeaveRoom(w.rooms, w.memory[a].room, a), memory := w.memory - {a})
  }

  // ---------------------------------------------------------------- the invariant

  predicate Registered(s: Session) {
    s.phase != Constructing
  }

  /** The room table holds exactly the registered sessions, each in its own room, and no empty room. */
  ghost predicate RoomsOk(w: World) {
    && (forall room, a | room in w.rooms && a in w.rooms[room] ::
          a in w.memory && w.memory[a].room == room && Registered(w.memory[a]))
    && (forall a | a in w.memory && Registered(w.memory[a]) :: a in Members(w.rooms, w.memory[a].room))
    && (forall room | room in w.rooms :: w.rooms[room] != {})
  }

  /** No two objects share a serial number, and every number given out has an inbox. */
  ghost predicate SerialsOk(w: World) {
    && (forall a | a in w.memory :: w.memory[a].serial < w.next)
    && (forall a, b | a in w.memory && b in w.memory && w.memory[a].serial == w.memory[b].serial :: a == b)
    && (forall s: nat :: s in w.inbox <==> s < w.next)
  }

  predicate Received(w: World, s: nat, c: nat) {
    s in w.inbox && c in w.inbox[s]
  }

  /** A broadcast's audience is split into those still to come, those who have it, and those it missed;
      and whoever it missed is not running any more. */
  ghost predicate CastOk(w: World, c: nat)
    requires c in w.casts
  {
    var cast := w.casts[c];
    && (forall s | s in cast.audience :: s < w.next)
    && cast.left <= cast.audience && cast.missed <= cast.audience && cast.left !! cast.missed
    && (forall s | s in cast.audience :: (s in cast.left || s in cast.missed) <==> !Received(w, s, c))
    && (forall s | s in cast.missed :: !Lockable(w, s))
  }

  ghost predicate CastsOk(w: World) {
    forall c | c in w.casts :: CastOk(w, c)
  }

  /** Every queued message belongs to a broadcast that had this session in its audience, and no broadcast
      is queued twice. */
  ghost predicate InboxOk(w: World) {
    && (forall s, c | s in w.inbox && c in w.inbox[s] :: c in w.casts && s in w.casts[c].audience)
    && (forall s, i, j | s in w.inbox && 0 <= i < j < |w.inbox[s]| :: w.inbox[s][i] != w.inbox[s][j])
  }

  /** Whoever is still in memory from an audience is in the room that was broadcast to, and owned or expired. */
  ghost predicate AudienceOk(w: World) {
    forall c, a | c in w.casts && a in w.memory && w.memory[a].serial in w.casts[c].audience ::
      w.memory[a].room == w.casts[c].room && (w.memory[a].phase == Running || w.memory[a].phase == Expired)
  }

  ghost predicate Inv(w: World) {
    RoomsOk(w) && SerialsOk(w) && CastsOk(w) && InboxOk(w) && AudienceOk(w)
  }

  // ---------------------------------------------------------------- every step keeps it

  lemma JoinKeepsRooms(w: World, a: nat)
    requires RoomsOk(w) && Enabled(w, Join(a))
    ensures RoomsOk(Apply(w, Join(a)))
  {
    var w', home := Apply(w, Join(a)), w.memory[a].room;
    forall room, b | room in w'.rooms && b in w'.rooms[room] && b != a
      ensures b in w'.memory && w'.memory[b].room == room && Registered(w'.memory[b])
    {
      assert room in w.rooms && b in w.rooms[room];
    }
    assert a in w'.rooms[home];
  }

  lemma LeaveKeepsRooms(w: World, a: nat)
    requires RoomsOk(w) && Enabled(w, Leave(a))
    ensures RoomsOk(Apply(w, Leave(a)))
  {
    var w', home := Apply(w, Leave(a)), w.memory[a].room;
    assert a in w.rooms[home];
    forall b | b in w'.memory && Registered(w'.memory[b]) ensures b in Members(w'.rooms, w'.memory[b].room) {
      assert b in w.rooms[w.memory[b].room];
    }
  }

  /** A step that moves a registered session on leaves the table as right as it was. */
  lemma MoveKeepsRooms(w: World, a: nat, phase: Phase)
    requires RoomsOk(w) && a in w.memory && Registered(w.memory[a]) && phase != Constructing
    ensures RoomsOk(w.(memory := Moved(w, a, phase)))
  {
  }

  lemma KeepsRooms(w: World, op: Op)
    requires Inv(w) && Enabled(w, op)
    ensures RoomsOk(Apply(w, op))
  {
    match op
    case Construct(a, room) =>
    case Join(a) => JoinKeepsRooms(w, a);
    case Publish(a) => MoveKeepsRooms(w, a, Running);
    case Snapshot(a, c, text) =>
      assert a in Members(w.rooms, w.memory[a].room);
    case Send(c, s) =>
    case Expire(a) => MoveKeepsRooms(w, a, Expired);
    case Leave(a) => LeaveKeepsRooms(w, a);
  }

  lemma KeepsSerials(w: World, op: Op)
    requires SerialsOk(w) && Enabled(w, op)
    ensures SerialsOk(Apply(w, op))
  {
    if op.Construct? { ConstructKeepsSerials(w, op.at, op.room); } else { SameSerials(w, Apply(w, op)); }
  }

  lemma ConstructKeepsSerials(w: World, a: nat, room: RoomId)
    requires SerialsOk(w) && Enabled(w, Construct(a, room))
    ensures SerialsOk(Apply(w, Construct(a, room)))
  {
  }

  lemma SameSerials(w: World, w': World)
    requires SerialsOk(w) && w'.next == w.next && w'.inbox.Keys == w.inbox.Keys
    requires forall a | a in w'.memory :: a in w.memory && w'.memory[a].serial == w.memory[a].serial
    ensures SerialsOk(w')
  {
  }

  /** Nobody becomes lockable who was not, except by being published. */
  lemma LockableBefore(w: World, op: Op, s: nat)
    requires Inv(w) && Enabled(w, op) && s < w.next && Lockable(Apply(w, op), s) && !Lockable(w, s)
    ensures op.Publish? && w.memory[op.at].serial == s
  {
    var w' := Apply(w, op);
    var a :| a in w'.memory && w'.memory[a].serial == s && w'.memory[a].phase == Running;
  }

  /** A session that does not run yet is in no audience. */
  lemma NotInAudience(w: World, a: nat)
    requires AudienceOk(w) && (At(w, a, Constructing) || At(w, a, Joined))
    ensures forall c | c in w.casts :: w.memory[a].serial !in w.casts[c].audience
  {
  }

  lemma OldCastKept(w: World, op: Op, c: nat)
    requires Inv(w) && Enabled(w, op) && c in w.casts && !(op.Send? && op.cast == c)
    ensures c in Apply(w, op).casts && Apply(w, op).casts[c] == w.casts[c]
    ensures CastOk(Apply(w, op), c)
  {
    var w' := Apply(w, op);
    forall s | s in w.casts[c].audience ensures Received(w', s, c) <==> Received(w, s, c) {}
    forall s | s in w.casts[c].missed ensures !Lockable(w', s) {
      if Lockable(w', s) {
        LockableBefore(w, op, s);
        NotInAudience(w, op.at);
      }
    }
  }

  lemma SendKeepsCast(w: World, c: nat, s: nat)
    requires Inv(w) && Enabled(w, Send(c, s))
    ensures CastOk(Apply(w, Send(c, s)), c)
  {
    var w' := Apply(w, Send(c, s));
    forall t | t in w.casts[c].audience && t != s ensures Received(w', t, c) <==> Received(w, t, c) {}
    forall t ensures Lockable(w', t) <==> Lockable(w, t) {}
    if Lockable(w, s) {
      assert w'.inbox[s][|w.inbox[s]|] == c;
    }
  }

  lemma SnapshotMakesCast(w: World, a: nat, c: nat, text: string)
    requires Inv(w) && Enabled(w, Snapshot(a, c, text))
    ensures CastOk(Apply(w, Snapshot(a, c, text)), c)
  {
  }

  lemma KeepsCasts(w: World, op: Op)
    requires Inv(w) && Enabled(w, op)
    ensures CastsOk(Apply(w, op))
  {
    forall c | c in Apply(w, op).casts ensures CastOk(Apply(w, op), c) {
      if op.Send? && op.cast == c {
        SendKeepsCast(w, c, op.to);
      } else if op.Snapshot? && op.cast == c {
        SnapshotMakesCast(w, op.at, c, op.text);
      } else {
        OldCastKept(w, op, c);
      }
    }
  }

  lemma KeepsInbox(w: World, op: Op)
    requires CastsOk(w) && InboxOk(w) && Enabled(w, op)
    ensures InboxOk(Apply(w, op))
  {
    match op
    case Send(c, s) =>
      assert !Received(w, s, c);
    case Construct(a, room) =>
    case Join(a) =>
    case Publish(a) =>
    case Snapshot(a, c, text) =>
    case Expire(a) =>
    case Leave(a) =>
  }

  lemma ConstructKeepsAudience(w: World, a: nat, room: string)
    requires SerialsOk(w) && CastsOk(w) && AudienceOk(w) && Enabled(w, Construct(a, room))
    ensures AudienceOk(Apply(w, Construct(a, room)))
  {
    assert forall c | c in w.casts :: CastOk(w, c) && w.next !in w.casts[c].audience;
  }

  lemma SnapshotKeepsAudience(w: World, a: nat, c: nat, text: string)
    requires RoomsOk(w) && SerialsOk(w) && AudienceOk(w) && Enabled(w, Snapshot(a, c, text))
    ensures AudienceOk(Apply(w, Snapshot(a, c, text)))
  {
  }

  lemma KeepsAudience(w: World, op: Op)
    requires Inv(w) && Enabled(w, op)
    ensures AudienceOk(Apply(w, op))
  {
    match op
    case Construct(a, room) => ConstructKeepsAudience(w, a, room);
    case Publish(a) => NotInAudience(w, a);
    case Snapshot(a, c, text) => SnapshotKeepsAudience(w, a, c, text);
    case Join(a) => NotInAudience(w, a);
    case Send(c, s) =>
    case Expire(a) =>
    case Leave(a) =>
  }

  /** Every step of every session keeps the invariant. */
  lemma StepKeepsInv(w: World, op: Op)
    requires Inv(w) && Enabled(w, op)
    ensures Inv(Apply(w, op))
  {
    KeepsRooms(w, op);
    KeepsSerials(w, op);
    KeepsCasts(w, op);
    KeepsInbox(w, op);
    KeepsAudience(w, op);
  }

  // ---------------------------------------------------------------- whole runs

  /** The world after a run, which stops where a step cannot be taken. */
  function Run(w: World, ops: seq<Op>): World
    decreases |ops|
  {
    if ops == [] || !Enabled(w, ops[0]) then w else Run(Apply(w, ops[0]), ops[1..])
  }

  lemma {:induction false} RunKeepsInv(w: World, ops: seq<Op>)
    requires Inv(w)
    ensures Inv(Run(w, ops))
    decreases |ops|
  {
    if ops == [] || !Enabled(w, ops[0]) {
    } else {
      StepKeepsInv(w, ops[0]);
      RunKeepsInv(Apply(w, ops[0]), ops[1..]);
    }
  }

  ghost predicate Reachable(w: World) {
    exists ops :: Run(EMPTY, ops) == w
  }

  lemma ReachableInv(w: World)
    requires Reachable(w)
    ensures Inv(w)
  {
    var ops :| Run(EMPTY, ops) == w;
    RunKeepsInv(EMPTY, ops);
  }

  /** In every interleaving, a pointer in the table is a session not yet destroyed, in its own room's set
      and in no other, and no empty room is kept. */
  lemma TableIsExact(w: World, room: RoomId, a: nat)
    requires Reachable(w)
    ensures a in Members(w.rooms, room)
       <==> a in w.memory && w.memory[a].room == room && w.memory[a].phase != Constructing
    ensures room in w.rooms <==> exists b :: b in Members(w.rooms, room)
  {
    ReachableInv(w);
    if room in w.rooms {
      assert w.rooms[room] != {};
      var b :| b in w.rooms[room];
      assert b in Members(w.rooms, room);
    }
  }

  /** A running session's broadcast always finds its room: the lookup under the shared lock inserts nothing. */
  lemma BroadcastFindsRoom(w: World, a: nat, c: nat, text: string)
    requires Reachable(w) && Enabled(w, Snapshot(a, c, text))
    ensures Apply(w, Snapshot(a, c, text)).rooms == w.rooms
    ensures w.memory[a].serial in Apply(w, Snapshot(a, c, text)).casts[c].audience
  {
    ReachableInv(w);
  }

  /** The snapshot is the owned members of the sender's room, nobody else. */
  lemma AudienceExact(w: World, a: nat, c: nat, text: string, b: nat)
    requires Reachable(w) && Enabled(w, Snapshot(a, c, text)) && b in w.memory
    ensures w.memory[b].serial in Apply(w, Snapshot(a, c, text)).casts[c].audience
       <==> w.memory[b].room == w.memory[a].room && (w.memory[b].phase == Running || w.memory[b].phase == Expired)
  {
    ReachableInv(w);
  }

  /** Whatever a living session has queued was broadcast to its own room, and reached it once. */
  lemma DeliveredToOwnRoom(w: World, a: nat, i: nat)
    requires Reachable(w) && a in w.memory && w.memory[a].serial in w.inbox && i < |w.inbox[w.memory[a].serial]|
    ensures
      var queue := w.inbox[w.memory[a].serial];
      && queue[i] in w.casts && w.casts[queue[i]].room == w.memory[a].room
      && forall j | 0 <= j < |queue| && queue[j] == queue[i] :: j == i
  {
    ReachableInv(w);
  }

  /** Once a broadcast has been through its audience, every member that still runs has the message. */
  lemma FinishedReachesAll(w: World, c: nat, a: nat)
    requires Reachable(w) && c in w.casts && w.casts[c].left == {}
    requires a in w.memory && w.memory[a].phase == Running && w.memory[a].serial in w.casts[c].audience
    ensures Received(w, w.memory[a].serial, c)
  {
    ReachableInv(w);
    assert Lockable(w, w.memory[a].serial);
  }

  // ---------------------------------------------------------------- what is broadcast, and in which order

  /** Two records of one broadcast: what it says does not differ. */
  predicate SameMessage(a: Cast, b: Cast) {
    a.sender == b.sender && a.room == b.room && a.text == b.text && a.audience == b.audience
  }

  /** No later step changes what a broadcast says, nor to whom. */
  lemma {:induction false} CastStays(w: World, ops: seq<Op>, c: nat)
    requires c in w.casts
    ensures c in Run(w, ops).casts && SameMessage(Run(w, ops).casts[c], w.casts[c])
    decreases |ops|
  {
    if ops == [] || !Enabled(w, ops[0]) {
    } else {
      CastStays(Apply(w, ops[0]), ops[1..], c);
    }
  }

  /** A broadcast says what it was given: the sender, the sender's room, and the text. */
  lemma SnapshotSays(w: World, a: nat, c: nat, text: string, ops: seq<Op>)
    requires Enabled(w, Snapshot(a, c, text))
    ensures c in Run(Apply(w, Snapshot(a, c, text)), ops).casts
    ensures var cast := Run(Apply(w, Snapshot(a, c, text)), ops).casts[c];
      cast.sender == w.memory[a].serial && cast.room == w.memory[a].room && cast.text == text
  {
    CastStays(Apply(w, Snapshot(a, c, text)), ops, c);
  }

  /** Step `i` of the run was taken, in this world. */
  predicate Taken(w: World, ops: seq<Op>, i: nat)
    requires i < |ops|
    decreases i
  {
    Enabled(w, ops[0]) && (i == 0 || Taken(Apply(w, ops[0]), ops[1..], i - 1))
  }

  function Before(w: World, ops: seq<Op>, i: nat): World
    requires i < |ops| && Taken(w, ops, i)
    decreases i
  {
    if i == 0 then w else Before(Apply(w, ops[0]), ops[1..], i - 1)
  }

  /** Every broadcast of a run was made by one step of it, and says what that step was given. */
  lemma {:induction false} CastWasMade(w: World, ops: seq<Op>, c: nat) returns (i: nat)
    requires c !in w.casts && c in Run(w, ops).casts
    ensures i < |ops| && Taken(w, ops, i) && ops[i].Snapshot? && ops[i].cast == c
    ensures ops[i].at in Before(w, ops, i).memory
    ensures
      var cast, sender := Run(w, ops).casts[c], Before(w, ops, i).memory[ops[i].at];
      cast.sender == sender.serial && cast.room == sender.room && cast.text == ops[i].text
    decreases |ops|
  {
    if c in Apply(w, ops[0]).casts {
      i := 0;
      CastStays(Apply(w, ops[0]), ops[1..], c);
    } else {
      i := CastWasMade(Apply(w, ops[0]), ops[1..], c);
      i := i + 1;
    }
  }

  /** What one step does to who is where in memory. */
  lemma StepSession(w: World, op: Op, a: nat)
    requires Enabled(w, op) && a in Apply(w, op).memory
    ensures
      var session := Apply(w, op).memory[a];
      if op.Construct? && op.at == a then op == Construct(a, session.room) && session.serial == w.next
      else a in w.memory && session.serial == w.memory[a].serial && session.room == w.memory[a].room
  {
  }

  /** Every session in memory was made by one step of the run, for the room given there, and keeps it. */
  lemma {:induction false} SessionWasMade(w: World, ops: seq<Op>, last: World, a: nat) returns (i: nat)
    requires SerialsOk(w) && last == Run(w, ops) && a in last.memory
    requires a in w.memory ==> w.memory[a].serial != last.memory[a].serial
    ensures i < |ops| && Taken(w, ops, i) && ops[i] == Construct(a, last.memory[a].room)
    ensures last.memory[a].serial == Before(w, ops, i).next
    decreases |ops|
  {
    var w' := Apply(w, ops[0]);
    KeepsSerials(w, ops[0]);
    if a in w'.memory && w'.memory[a].serial == last.memory[a].serial {
      i := 0;
      StepSession(w, ops[0], a);
      SessionStays(w', ops[1..], a);
    } else {
      i := SessionWasMade(w', ops[1..], last, a);
      i := i + 1;
      assert ops[1..][i - 1] == ops[i];
    }
  }

  lemma {:induction false} SerialsGrow(w: World, ops: seq<Op>, a: nat)
    requires SerialsOk(w) && a in Run(w, ops).memory
    ensures
      var now := Run(w, ops).memory[a].serial;
      now >= w.next || (a in w.memory && now == w.memory[a].serial)
    decreases |ops|
  {
    if ops == [] || !Enabled(w, ops[0]) {
    } else {
      var w' := Apply(w, ops[0]);
      KeepsSerials(w, ops[0]);
      SerialsGrow(w', ops[1..], a);
      if a in w'.memory { StepSession(w, ops[0], a); }
    }
  }

  /** A session that is the same one later has its room still. */
  lemma {:induction false} SessionStays(w: World, ops: seq<Op>, a: nat)
    requires SerialsOk(w) && a in w.memory && a in Run(w, ops).memory
    requires Run(w, ops).memory[a].serial == w.memory[a].serial
    ensures Run(w, ops).memory[a].room == w.memory[a].room
    decreases |ops|
  {
    if ops == [] || !Enabled(w, ops[0]) {
    } else {
      var w' := Apply(w, ops[0]);
      KeepsSerials(w, ops[0]);
      SerialsGrow(w', ops[1..], a);
      if a in w'.memory { StepSession(w, ops[0], a); }
      SessionStays(w', ops[1..], a);
    }
  }

  /** The broadcasts that a run sends to a session it can lock, in the order of the sends. */
  function Delivered(w: World, ops: seq<Op>, s: nat): seq<nat>
    decreases |ops|
  {
    if ops == [] || !Enabled(w, ops[0]) then [] else
    (if ops[0].Send? && ops[0].to == s && Lockable(w, s) then [ops[0].cast] else [])
    + Delivered(Apply(w, ops[0]), ops[1..], s)
  }

  /** Every inbox only grows at its end, by what is sent, in the order in which it is sent. */
  lemma {:induction false} InboxGrows(w: World, ops: seq<Op>, s: nat)
    requires SerialsOk(w) && s in w.inbox
    ensures s in Run(w, ops).inbox && Run(w, ops).inbox[s] == w.inbox[s] + Delivered(w, ops, s)
    ensures w.inbox[s] <= Run(w, ops).inbox[s]
    decreases |ops|
  {
    if ops == [] || !Enabled(w, ops[0]) {
      assert w.inbox[s] + [] == w.inbox[s];
    } else {
      var w' := Apply(w, ops[0]);
      KeepsSerials(w, ops[0]);
      StepGrowsInbox(w, ops[0], s);
      InboxGrows(w', ops[1..], s);
      var sent := if ops[0].Send? && ops[0].to == s && Lockable(w, s) then [ops[0].cast] else [];
      Associative(w.inbox[s], sent, Delivered(w', ops[1..], s));
    }
  }

  /** A send reaches its session if that still has an owner, and otherwise nobody. */
  lemma SendReaches(w: World, c: nat, s: nat)
    requires SerialsOk(w) && s in w.inbox && Enabled(w, Send(c, s))
    ensures Apply(w, Send(c, s)).inbox == w.inbox[s := w.inbox[s] +
      if exists a | a in w.memory :: w.memory[a].serial == s && w.memory[a].phase == Running then [c] else []]
  {
    assert w.inbox[s] + [] == w.inbox[s];
  }

  lemma StepGrowsInbox(w: World, op: Op, s: nat)
    requires SerialsOk(w) && s in w.inbox && Enabled(w, op)
    ensures s in Apply(w, op).inbox
    ensures Apply(w, op).inbox[s] == w.inbox[s] + if op.Send? && op.to == s && Lockable(w, s) then [op.cast] else []
  {
  }

  // ---------------------------------------------------------------- what can always be done

  /** A session can always enter at a free address, and then runs in its room with nothing queued. */
  lemma Enters(w: World, a: nat, room: RoomId)
    requires a !in w.memory
    ensures
      Run(w, [Construct(a, room), Join(a), Publish(a)])
        == World(w.memory[a := Session(w.next, room, Running)], w.rooms[room := Members(w.rooms, room) + {a}],
                 w.next + 1, w.casts, w.inbox[w.next := []])
  {
    var w1 := Apply(w, Construct(a, room));
    var w2 := Apply(w1, Join(a));
    RunStep(w, Construct(a, room), [Join(a), Publish(a)]);
    RunStep(w1, Join(a), [Publish(a)]);
    RunStep(w2, Publish(a), []);
  }

  /** And a running session can always go: it is out of memory and out of its room, and no other room changes. */
  lemma Exits(w: World, a: nat)
    requires Reachable(w) && At(w, a, Running)
    ensures
      var w' := Run(w, [Expire(a), Leave(a)]);
      && w'.memory == w.memory - {a} && w'.casts == w.casts && w'.inbox == w.inbox
      && forall room :: Members(w'.rooms, room) == Members(w.rooms, room) - {a}
  {
    ReachableInv(w);
    OnlyInOwnRoom(w, a);
    ExitRuns(w, a);
  }

  lemma ExitRuns(w: World, a: nat)
    requires At(w, a, Running)
    ensures Run(w, [Expire(a), Leave(a)])
         == World(w.memory - {a}, LeaveRoom(w.rooms, w.memory[a].room, a), w.next, w.casts, w.inbox)
  {
    var w1 := Apply(w, Expire(a));
    RunStep(w, Expire(a), [Leave(a)]);
    RunStep(w1, Leave(a), []);
    assert w1.memory - {a} == w.memory - {a};
  }

  lemma OnlyInOwnRoom(w: World, a: nat)
    requires RoomsOk(w) && At(w, a, Running)
    ensures forall room ::
      Members(LeaveRoom(w.rooms, w.memory[a].room, a), room) == Members(w.rooms, room) - {a}
  {
  }

  /** A running session can always broadcast so that every running member of its room, itself included, gets
      the message next, and nobody else gets anything. */
  lemma BroadcastReaches(w: World, a: nat, c: nat, text: string) returns (ops: seq<Op>)
    requires Reachable(w) && At(w, a, Running) && c !in w.casts
    ensures
      var w' := Run(w, ops);
      && w'.memory == w.memory && w'.rooms == w.rooms
      && c in w'.casts && w'.casts[c].sender == w.memory[a].serial && w'.casts[c].text == text
      && w'.inbox.Keys == w.inbox.Keys && (forall b | b in w.memory :: w.memory[b].serial in w.inbox)
      && forall b | b in w.memory ::
        var gets := w.memory[b].phase == Running && w.memory[b].room == w.memory[a].room;
        w'.inbox[w.memory[b].serial] == w.inbox[w.memory[b].serial] + if gets then [c] else []
  {
    ReachableInv(w);
    var w1 := Apply(w, Snapshot(a, c, text));
    StepKeepsInv(w, Snapshot(a, c, text));
    var sends := SendAll(w1, c);
    ops := [Snapshot(a, c, text)] + sends;
    RunStep(w, Snapshot(a, c, text), sends);
    BroadcastFindsRoom(w, a, c, text);
    SnapshotSays(w, a, c, text, sends);
    forall b | b in w.memory
      ensures w.memory[b].serial in w1.casts[c].left && Lockable(w1, w.memory[b].serial)
         <==> w.memory[b].phase == Running && w.memory[b].room == w.memory[a].room
    {
      AudienceExact(w, a, c, text, b);
    }
  }

  lemma RunStep(w: World, op: Op, ops: seq<Op>)
    requires Enabled(w, op)
    ensures Run(w, [op] + ops) == Run(Apply(w, op), ops)
  {
    assert ([op] + ops)[1..] == ops;
  }

  lemma SendOne(w: World, c: nat, s: nat)
    requires c in w.casts && s in w.casts[c].left && s in w.inbox
    ensures
      var w' := Apply(w, Send(c, s));
      && w'.memory == w.memory && w'.rooms == w.rooms && c in w'.casts && w'.casts[c].left == w.casts[c].left - {s}
      && w'.inbox == w.inbox[s := w.inbox[s] + if Lockable(w, s) then [c] else []]
  {
    assert w.inbox[s] + [] == w.inbox[s];
  }

  /** Sending to all that are left. */
  lemma {:induction false} SendAll(w: World, c: nat) returns (ops: seq<Op>)
    requires SerialsOk(w) && c in w.casts && forall s | s in w.casts[c].left :: s in w.inbox
    ensures Run(w, ops).memory == w.memory && Run(w, ops).rooms == w.rooms && Run(w, ops).inbox.Keys == w.inbox.Keys
    ensures forall s | s in w.inbox ::
      Run(w, ops).inbox[s] == w.inbox[s] + if s in w.casts[c].left && Lockable(w, s) then [c] else []
    decreases |w.casts[c].left|
  {
    if w.casts[c].left == {} {
      ops := [];
    } else {
      var s :| s in w.casts[c].left;
      var w1 := Apply(w, Send(c, s));
      KeepsSerials(w, Send(c, s));
      SendOne(w, c, s);
      var rest := SendAll(w1, c);
      ops := [Send(c, s)] + rest;
      RunStep(w, Send(c, s), rest);
    }
  }

  // ---------------------------------------------------------------- the object

  class Rooms {
    var rooms: map<RoomId, set<nat>>

    constructor ()
      ensures rooms == map[]
    {
      rooms := map[];
    }

    method Join(room: RoomId, at: nat)
      modifies this
      ensures rooms == JoinRoom(old(rooms), room, at)
    {
      if room !in rooms { rooms := rooms[room := {}]; }
      rooms := rooms[room := rooms[room] + {at}];
    }

    method Leave(room: RoomId, at: nat)
      modifies this
      ensures rooms == LeaveRoom(old(rooms), room, at)
    {
      if room in rooms {
        rooms := rooms[room := rooms[room] - {at}];
        if rooms[room] == {} { rooms := rooms - {room}; }
      }
    }

    /** The locked part of a broadcast: a weak pointer of each member that is owned. */
    method TakeSnapshot(room: RoomId, memory: map<nat, Session>) returns (owned: set<nat>)
      requires Members(rooms, room) <= memory.Keys
      modifies this
      ensures rooms == TouchRoom(old(rooms), room)
      ensures owned == Owned(memory, Members(old(rooms), room))
    {
      if room !in rooms { rooms := rooms[room := {}]; }
      owned := {};
      var todo := rooms[room];
      while todo != {}
        invariant todo <= rooms[room] && room in rooms
        invariant owned == Owned(memory, rooms[room] - todo)
        decreases |todo|
      {
        var at :| at in todo;
        if memory[at].phase == Running || memory[at].phase == Expired {
          owned := owned + {memory[at].serial};
        }
        todo := todo - {at};
      }
    }
  }

  // ---------------------------------------------------------------- a session's read loop

  datatype Frame = Text(value: string) | Binary | Close

  /** How many text frames come first. */
  function TextPrefix(frames: seq<Frame>): (n: nat)
    ensures n <= |frames| && (forall i | 0 <= i < n :: frames[i].Text?)
    ensures n < |frames| ==> !frames[n].Text?
  {
    if frames == [] || !frames[0].Text? then 0 else 1 + TextPrefix(frames[1..])
  }

  /** Each text up to the first other frame is broadcast under the user's name; the session closes the
      connection itself exactly when that other frame is not a close. */
  method AsyncRead(user: string, frames: seq<Frame>) returns (broadcasts: seq<string>, closes: bool)
    ensures |broadcasts| == TextPrefix(frames)
    ensures forall i | 0 <= i < |broadcasts| :: broadcasts[i] == user + ": " + frames[i].value
    ensures closes <==> TextPrefix(frames) < |frames| && frames[TextPrefix(frames)] == Binary
  {
    broadcasts, closes := [], false;
    var k := 0;
    while k < |frames|
      invariant 0 <= k <= |frames| && |broadcasts| == k && !closes
      invariant forall i | 0 <= i < k :: frames[i].Text? && broadcasts[i] == user + ": " + frames[i].value
    {
      match frames[k] {
        case Text(value) =>
          broadcasts := broadcasts + [user + ": " + value];
        case Close =>
          break;
        case Binary =>
          closes := true;
          break;
      }
      k := k + 1;
    }
  }

  /** Leaving undoes joining, for the whole table. */
  lemma LeaveUndoesJoin(rooms: map<RoomId, set<nat>>, room: RoomId, at: nat)
    requires at !in Members(rooms, room) && (room in rooms ==> rooms[room] != {})
    ensures LeaveRoom(JoinRoom(rooms, room, at), room, at) == rooms
  {
    assert Members(rooms, room) + {at} - {at} == Members(rooms, room);
  }
}
