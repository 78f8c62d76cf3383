/** Request tracking of the block layer: concurrent coroutine requests on one
    device, kept apart by the serialising flag, the overlap hull and the
    waiting_for pointer.

    A request runs a script, the sequence of things its coroutine does.  The
    coroutine yields only inside driver I/O and inside a blocking wait, so one
    event of the state machine runs a request from one yield to the next.
    Driver I/O is not atomic: bytes move one at a time, in any order,
    interleaved with every other request. */
module TrackedRequests {
  import opened Common

  type ReqId = nat

  /** Which call of wait_serialising_requests a wait is; the asserts in the
      source differ by call. */
  datatype WaitSite = AtHead | AtTail | AtRead | AtWrite

  datatype Instr =
    | Mark                       // mark_request_serialising
    | Wait(site: WaitSite)       // wait_serialising_requests
    | Read(lo: int, hi: int)     // driver read of bytes [lo, hi)
    | Write(lo: int, hi: int)    // driver write of bytes [lo, hi)

  /** What tracked_request_begin is told, the alignment the request marks
      itself with, the bytes a write wants to store (none for a read), and
      whether a read copies what it reads into the device. */
  datatype Shape = Shape(offset: nat, bytes: nat, align: int, data: seq<Byte>, copy: bool) {
    predicate Valid() {
      align > 0 && (data == [] || |data| == bytes) && (copy ==> data == [])
    }

    /** p is one of the bytes the request was asked to change. */
    predicate Owns(p: int) { offset <= p < offset + |data| }

    function End(): int { offset + bytes }

    /** The request has to store p: its own byte, or a copy. */
    predicate Owes(p: int) { Owns(p) || (copy && offset <= p < End()) }

    /** The request has to read p. */
    predicate Wants(p: int) { data == [] && offset <= p < End() }
  }

  datatype Request = Request(
    shape: Shape,
    serialising: bool,
    overlapOffset: int,
    overlapBytes: int,
    waitingFor: Option<ReqId>,
    script: seq<Instr>,        // what is left to do; script[0] is in progress
    done: set<int>,            // bytes the I/O in progress has finished with
    buf: map<int, Byte>,       // bytes read so far, by disk position
    // history of the run, read by no step
    holding: bool,             // passed a wait since it began or grew its hull
    written: set<int>,         // bytes it has to store, stored so far
    early: set<int>,           // ... of which before it became serialising
    stamp: nat)                // when it last started to wait

  datatype State = State(
    disk: map<int, Byte>,
    list: seq<ReqId>,              // bs->tracked_requests, newest first
    reqs: map<ReqId, Request>,
    serialisingInFlight: int,
    nextId: ReqId,
    clock: nat)

  function ByteAt(disk: map<int, Byte>, p: int): Byte {
    if p in disk then disk[p] else 0
  }

  /** What a write instruction stores at p: the caller's byte inside the
      request's own range, the byte read earlier in the padding around it. */
  function Payload(r: Request, p: int): Byte {
    if r.shape.Owns(p) then r.shape.data[p - r.shape.offset]
    else if p in r.buf then r.buf[p] else 0
  }

  // ---- tracked_request_overlaps and wait_serialising_requests

  predicate Overlaps(req: Request, offset: int, bytes: int) {
    if offset >= req.overlapOffset + req.overlapBytes then false
    else if req.overlapOffset >= offset + bytes then false
    else true
  }

  /** Exactly what the overlap test decides. */
  lemma OverlapsExact(req: Request, offset: int, bytes: int)
    ensures Overlaps(req, offset, bytes) <==>
      offset < req.overlapOffset + req.overlapBytes && req.overlapOffset < offset + bytes
  {
  }

  /** Byte p lies in the hull of the request. */
  predicate InOverlap(req: Request, p: int) { req.overlapOffset <= p < req.overlapOffset + req.overlapBytes }

  /** For hulls that are not empty, the overlap test is true exactly when they
      share a byte. */
  lemma OverlapsIff(req: Request, self: Request)
    requires req.overlapBytes > 0 && self.overlapBytes > 0
    ensures Overlaps(req, self.overlapOffset, self.overlapBytes) <==> exists p :: InOverlap(req, p) && InOverlap(self, p)
  {
    if Overlaps(req, self.overlapOffset, self.overlapBytes) {
      var p := Max(req.overlapOffset, self.overlapOffset);
      assert InOverlap(req, p) && InOverlap(self, p);
    }
  }

  /** The pair the scan does not skip. */
  predicate Conflict(self: Request, req: Request) {
    (req.serialising || self.serialising) &&
    Overlaps(req, self.overlapOffset, self.overlapBytes)
  }

  predicate Blocks(s: State, self: ReqId, other: ReqId)
    requires self in s.reqs && other in s.reqs
  {
    other != self && Conflict(s.reqs[self], s.reqs[other]) && s.reqs[other].waitingFor.None?
  }

  /** The request the full scan of the list stops at. */
  function Scan(s: State, self: ReqId, list: seq<ReqId>): (b: Option<ReqId>)
    requires self in s.reqs && forall x :: x in list ==> x in s.reqs
    ensures b.Some? ==> b.value in list && Blocks(s, self, b.value)
    ensures b.None? ==> forall x :: x in list ==> !Blocks(s, self, x)
  {
    if list == [] then None
    else if Blocks(s, self, list[0]) then Some(list[0])
    else Scan(s, self, list[1..])
  }

  /** One pass of the retry loop, with the early return of the source. */
  function Blocker(s: State, self: ReqId): Option<ReqId>
    requires self in s.reqs && forall x :: x in s.list ==> x in s.reqs
  {
    if s.serialisingInFlight == 0 then None else Scan(s, self, s.list)
  }

  // ---- the steps between two yields

  function Put(s: State, id: ReqId, r: Request): State {
    s.(reqs := s.reqs[id := r])
  }

  /** tracked_request_begin */
  function Begun(s: State, shape: Shape, script: seq<Instr>): State {
    var r := Request(shape, false, shape.offset, shape.bytes, None, script,
                     {}, map[], false, {}, {}, 0);
    Put(s, s.nextId, r).(list := [s.nextId] + s.list, nextId := s.nextId + 1)
  }

  function Remove(list: seq<ReqId>, id: ReqId): (r: seq<ReqId>)
    ensures forall x :: x in r <==> x in list && x != id
  {
    if list == [] then []
    else if list[0] == id then Remove(list[1..], id)
    else [list[0]] + Remove(list[1..], id)
  }

  /** tracked_request_end */
  function Ended(s: State, id: ReqId): State
    requires id in s.reqs
  {
    s.(reqs := s.reqs - {id}, list := Remove(s.list, id),
       serialisingInFlight :=
         if s.reqs[id].serialising then s.serialisingInFlight - 1 else s.serialisingInFlight)
  }

  /** mark_request_serialising */
  function Marked(s: State, id: ReqId): State
    requires id in s.reqs && s.reqs[id].shape.Valid() && s.reqs[id].script != []
  {
    var r := s.reqs[id];
    var overlapOffset := RoundDown(r.shape.offset, r.shape.align);
    var overlapBytes := RoundUp(r.shape.End(), r.shape.align) - overlapOffset;
    Put(s, id, r.(serialising := true,
                  overlapOffset := Min(r.overlapOffset, overlapOffset),
                  overlapBytes := Max(r.overlapBytes, overlapBytes),
                  script := r.script[1..],
                  holding := r.serialising && r.holding,
                  early := if r.serialising then r.early else r.written))
      .(serialisingInFlight :=
          if r.serialising then s.serialisingInFlight else s.serialisingInFlight + 1)
  }

  function Passed(s: State, id: ReqId): State
    requires id in s.reqs && s.reqs[id].script != []
  {
    var r := s.reqs[id];
    Put(s, id, r.(script := r.script[1..], holding := true))
  }

  function Blocked(s: State, id: ReqId, b: ReqId): State
    requires id in s.reqs
  {
    var r := s.reqs[id];
    Put(s, id, r.(waitingFor := Some(b), holding := false, stamp := s.clock))
      .(clock := s.clock + 1)
  }

  predicate IsIo(i: Instr) { i.Read? || i.Write? }

  ghost predicate WellFormed(s: State) {
    && (forall x :: x in s.list <==> x in s.reqs)
    && (forall x :: x in s.reqs ==> s.reqs[x].shape.Valid() && x < s.nextId)
  }

  /** Runs request id until its coroutine yields again or the request ends. */
  function Run(s: State, id: ReqId): State
    requires WellFormed(s) && id in s.reqs
    decreases |s.reqs[id].script|
  {
    var r := s.reqs[id];
    if r.script == [] then Ended(s, id)
    else match r.script[0] {
      case Mark => Run(Marked(s, id), id)
      case Wait(_) =>
        var b := Blocker(s, id);
        if b.Some? then Blocked(s, id, b.value) else Run(Passed(s, id), id)
      case _ => Put(s, id, r.(done := {}))
    }
  }

  // ---- events

  datatype Event =
    | Begin(shape: Shape, script: seq<Instr>)
    | ReadByte(id: ReqId, p: int)
    | WriteByte(id: ReqId, p: int)
    | Complete(id: ReqId)   // the driver reports success
    | Fail(id: ReqId)       // the driver reports an error, part of the bytes moved
    | Wake(id: ReqId)       // re-entered after the request it waited for ended

  predicate InIo(s: State, id: ReqId) {
    id in s.reqs && s.reqs[id].waitingFor.None? &&
    s.reqs[id].script != [] && IsIo(s.reqs[id].script[0])
  }

  ghost predicate Enabled(s: State, e: Event)
  {
    match e
    case Begin(shape, script) => shape.Valid() && Disciplined(shape, false, false, {}, script) && Covers(shape, {}, {}, script)
    case ReadByte(id, p) =>
      InIo(s, id) && s.reqs[id].script[0].Read? && p in ToDo(s.reqs[id])
    case WriteByte(id, p) =>
      InIo(s, id) && s.reqs[id].script[0].Write? && p in ToDo(s.reqs[id])
    case Complete(id) => InIo(s, id) && ToDo(s.reqs[id]) == {}
    case Fail(id) => InIo(s, id)
    case Wake(id) =>
      id in s.reqs && s.reqs[id].waitingFor.Some? && s.reqs[id].waitingFor.value !in s.reqs
  }

  /** Bytes the I/O in progress has yet to move. */
  function ToDo(r: Request): set<int>
    requires r.script != [] && IsIo(r.script[0])
  {
    Range(r.script[0].lo, r.script[0].hi) - r.done
  }

  function Step(s: State, e: Event): State
    requires WellFormed(s) && Enabled(s, e)
  {
    match e
    case Begin(shape, script) => Run(Begun(s, shape, script), s.nextId)
    case ReadByte(id, p) =>
      var r := s.reqs[id];
      Put(s, id, r.(buf := r.buf[p := ByteAt(s.disk, p)], done := r.done + {p}))
    case WriteByte(id, p) =>
      var r := s.reqs[id];
      Put(s, id, r.(done := r.done + {p},
                    written := if r.shape.Owes(p) then r.written + {p} else r.written))
        .(disk := s.disk[p := Payload(r, p)])
    case Complete(id) =>
      var r := s.reqs[id];
      Run(Put(s, id, r.(script := r.script[1..])), id)
    case Fail(id) => Ended(s, id)
    case Wake(id) =>
      var r := s.reqs[id];
      Run(Put(s, id, r.(waitingFor := None)), id)
  }

  // ---- what every script the block layer runs has in common

  function HullLo(shape: Shape, serialising: bool): int
    requires shape.Valid()
  {
    if serialising then RoundDown(shape.offset, shape.align) else shape.offset
  }

  function HullHi(shape: Shape, serialising: bool): int
    requires shape.Valid()
  {
    if serialising then RoundUp(shape.End(), shape.align) else shape.End()
  }

  /** A script is disciplined from a point where the request is serialising
      (or not), holds its range (or not) and has already read the positions
      avail, when: I/O happens only while it holds, and inside its hull;
      padding is written back only by a serialising request that has read it;
      it marks itself only before it has read anything; and nothing read is
      carried across a wait unless the request already holds its range. */
  predicate Disciplined(shape: Shape, serialising: bool, holding: bool, avail: set<int>, script: seq<Instr>)
    requires shape.Valid()
    decreases |script|
  {
    if script == [] then true
    else
      var rest := script[1..];
      match script[0]
      case Mark =>
        (serialising || avail == {}) &&
        Disciplined(shape, true, serialising && holding, avail, rest)
      case Wait(site) =>
        (avail != {} ==> serialising && holding) &&
        (site.AtWrite? && serialising ==> holding) &&
        Disciplined(shape, serialising, true, avail, rest)
      case Read(lo, hi) =>
        holding && InHull(shape, serialising, lo, hi) &&
        Disciplined(shape, serialising, holding, avail + Range(lo, hi), rest)
      case Write(lo, hi) =>
        holding && InHull(shape, serialising, lo, hi) &&
        (forall p | lo <= p < hi && !shape.Owns(p) :: serialising && p in avail) &&
        Disciplined(shape, serialising, holding, avail, rest)
  }

  predicate InHull(shape: Shape, serialising: bool, lo: int, hi: int)
    requires shape.Valid()
  {
    HullLo(shape, serialising) <= lo <= hi <= HullHi(shape, serialising)
  }

  predicate WillWrite(script: seq<Instr>, p: int) {
    exists i :: 0 <= i < |script| && script[i].Write? && script[i].lo <= p < script[i].hi
  }

  predicate WillRead(script: seq<Instr>, p: int) {
    exists i :: 0 <= i < |script| && script[i].Read? && script[i].lo <= p < script[i].hi
  }

  /** Every byte the request has to store is stored already or will be, and
      every byte it has to read is read already or will be. */
  ghost predicate Covers(shape: Shape, written: set<int>, fetched: set<int>, script: seq<Instr>) {
    && (forall p :: shape.Owes(p) ==> p in written || WillWrite(script, p))
    && (forall p :: shape.Wants(p) ==> p in fetched || WillRead(script, p))
  }
}
