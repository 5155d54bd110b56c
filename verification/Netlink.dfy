/**
 Walking the kernel's socket-diagnostics replies. Messages carry the 16-byte
 header of section 2.3.2 of RFC 3549, attributes a 4-byte one; both are padded to
 multiples of four. Integers are read little-endian.
 */
module Netlink {
  import opened Sequences

  type Byte = n: nat | n < 0x100
  type Bytes = seq<Byte>

  const HEADER := 16
  const ERROR_BODY := 20
  const DIAG_BODY := 72
  const NLMSG_ERROR := 2
  const NLMSG_DONE := 3
  const SOCK_DIAG_BY_FAMILY := 20
  const INET_DIAG_INFO := 2
  const TCP_ESTABLISHED := 1

  /** The next multiple of four, and no further. */
  function Align(len: nat): (m: nat)
    ensures m % 4 == 0 && len <= m < len + 4
  {
    (len + 3) / 4 * 4
  }

  function Word16(b: Bytes, at: nat): (r: nat)
    requires at + 2 <= |b|
    ensures r < 0x1_0000
  {
    var low: nat, high: nat := b[at], b[at + 1];
    low + 0x100 * high
  }

  function Word32(b: Bytes, at: nat): (r: nat)
    requires at + 4 <= |b|
    ensures r < 0x1_0000_0000
  {
    Word16(b, at) + 0x1_0000 * Word16(b, at + 2)
  }

  /** The two's complement reading of the four bytes. */
  function Signed32(b: Bytes, at: nat): int
    requires at + 4 <= |b|
  {
    var n := Word32(b, at);
    if n < 0x8000_0000 then n else n - 0x1_0000_0000
  }

  // ----- attributes of one reply

  /** `Stalls` is the loop that reads the same attribute for ever. */
  datatype Found = Missing | Info(data: Bytes) | Stalls

  function DataLength(attrLen: nat): nat {
    if attrLen < 4 then 0 else attrLen - 4
  }

  /** One turn of the attribute loop. */
  datatype Turn = Advance(offset: nat) | Stop(found: Found)

  function AttrTurn(payload: Bytes, offset: nat): Turn {
    if offset + 4 > |payload| then Stop(Missing)
    else
      var attrLen := Word16(payload, offset);
      var kind := Word16(payload, offset + 2);
      var end := offset + 4 + DataLength(attrLen);
      if end > |payload| then Stop(Missing)
      else if kind == INET_DIAG_INFO then Stop(Info(payload[offset + 4..end]))
      else Advance(offset + Align(attrLen))
  }

  function Scan(payload: Bytes, offset: nat): Found
    decreases if offset <= |payload| then |payload| - offset else 0
  {
    match AttrTurn(payload, offset)
    case Stop(found) => found
    case Advance(next) => if next == offset then Stalls else Scan(payload, next)
  }

  /** The loop taken literally for `turns` turns. */
  function Turns(payload: Bytes, offset: nat, turns: nat): Turn
    decreases turns
  {
    if turns == 0 then Advance(offset)
    else match AttrTurn(payload, offset)
      case Stop(found) => Stop(found)
      case Advance(next) => Turns(payload, next, turns - 1)
  }

  lemma {:induction false} StallNeverStops(payload: Bytes, offset: nat, turns: nat)
    requires Scan(payload, offset) == Stalls
    ensures Turns(payload, offset, turns).Advance?
    decreases turns
  {
    if turns == 0 {
    } else {
      var next := AttrTurn(payload, offset).offset;
      StallNeverStops(payload, next, turns - 1);
    }
  }

  lemma {:induction false} ScanStops(payload: Bytes, offset: nat) returns (turns: nat)
    requires Scan(payload, offset) != Stalls
    ensures Turns(payload, offset, turns) == Stop(Scan(payload, offset))
    decreases if offset <= |payload| then |payload| - offset else 0
  {
    match AttrTurn(payload, offset)
    case Stop(_) =>
      turns := 1;
    case Advance(next) =>
      var rest := ScanStops(payload, next);
      turns := rest + 1;
  }

  /** The attribute loop runs for ever exactly where the scan says so, and otherwise ends with its answer. */
  lemma LoopsForeverExactlyOnStall(payload: Bytes, offset: nat)
    ensures Scan(payload, offset) == Stalls <==> forall turns :: Turns(payload, offset, turns).Advance?
    ensures Scan(payload, offset) != Stalls ==>
            exists turns :: Turns(payload, offset, turns) == Stop(Scan(payload, offset))
  {
    if Scan(payload, offset) == Stalls {
      forall turns ensures Turns(payload, offset, turns).Advance? {
        StallNeverStops(payload, offset, turns);
      }
    } else {
      var turns := ScanStops(payload, offset);
    }
  }

  /** An attribute of length zero that is not the one looked for. */
  predicate ZeroLength(payload: Bytes, at: nat) {
    at + 4 <= |payload| && Word16(payload, at) == 0 && Word16(payload, at + 2) != INET_DIAG_INFO
  }

  lemma {:induction false} StallComesFromZeroLength(payload: Bytes, offset: nat) returns (turns: nat, at: nat)
    requires Scan(payload, offset) == Stalls
    ensures Turns(payload, offset, turns) == Advance(at) && ZeroLength(payload, at)
    decreases if offset <= |payload| then |payload| - offset else 0
  {
    var next := AttrTurn(payload, offset).offset;
    if next == offset {
      turns, at := 0, offset;
    } else {
      turns, at := StallComesFromZeroLength(payload, next);
      turns := turns + 1;
    }
  }

  lemma {:induction false} ZeroLengthStalls(payload: Bytes, offset: nat, turns: nat, at: nat)
    requires Turns(payload, offset, turns) == Advance(at) && ZeroLength(payload, at)
    ensures Scan(payload, offset) == Stalls
    decreases turns
  {
    if turns == 0 {
    } else {
      ZeroLengthStalls(payload, AttrTurn(payload, offset).offset, turns - 1, at);
    }
  }

  /** It stalls exactly when it comes to an attribute of length zero. */
  lemma StallsExactlyAtZeroLength(payload: Bytes, offset: nat)
    ensures Scan(payload, offset) == Stalls
       <==> exists turns, at :: Turns(payload, offset, turns) == Advance(at) && ZeroLength(payload, at)
  {
    if Scan(payload, offset) == Stalls {
      var turns, at := StallComesFromZeroLength(payload, offset);
    } else if exists turns, at :: Turns(payload, offset, turns) == Advance(at) && ZeroLength(payload, at) {
      var turns, at :| Turns(payload, offset, turns) == Advance(at) && ZeroLength(payload, at);
      ZeroLengthStalls(payload, offset, turns, at);
    }
  }

  /** What one reply contributes: only an established socket, only its first info attribute. */
  function Collect(payload: Bytes): Found {
    if |payload| < DIAG_BODY || payload[1] != TCP_ESTABLISHED then Missing
    else Scan(payload, Align(DIAG_BODY))
  }

  method CollectMessage(payload: Bytes) returns (found: Found)
    ensures found == Collect(payload)
  {
    if |payload| < DIAG_BODY {
      return Missing;
    }
    if payload[1] != TCP_ESTABLISHED {
      return Missing;
    }
    var offset := Align(DIAG_BODY);
    while offset + 4 <= |payload|
      invariant Scan(payload, offset) == Scan(payload, Align(DIAG_BODY))
      decreases |payload| - offset
    {
      var attrLen := Word16(payload, offset);
      var kind := Word16(payload, offset + 2);
      var data := offset + 4;
      if data + DataLength(attrLen) > |payload| {
        break;
      }
      if kind == INET_DIAG_INFO {
        return Info(payload[data..data + DataLength(attrLen)]);
      }
      if Align(attrLen) == 0 {
        return Stalls;            // the offset would not move again
      }
      offset := offset + Align(attrLen);
    }
    found := Missing;
  }

  // ----- messages of one datagram

  datatype Frame = Frame(kind: nat, payload: Bytes)

  /** The messages a datagram holds, up to the first header that does not fit. */
  function Frames(b: Bytes, offset: nat): seq<Frame>
    decreases if offset <= |b| then |b| - offset else 0
  {
    if offset + HEADER > |b| then []
    else
      var len := Word32(b, offset);
      if len < HEADER || offset + len > |b| then []
      else [Frame(Word16(b, offset + 4), b[offset + HEADER..offset + len])] + Frames(b, offset + Align(len))
  }

  /** `payload` stands behind a header at position `at` of the bytes received. */
  ghost predicate CutAt(b: Bytes, at: nat, payload: Bytes) {
    at + HEADER + |payload| <= |b| && payload == b[at + HEADER..at + HEADER + |payload|]
  }

  /** Every frame is cut out of the bytes received, and frames do not overlap. */
  lemma {:induction false} FramesFit(b: Bytes, offset: nat, k: nat) returns (at: nat)
    requires k < |Frames(b, offset)|
    ensures offset + HEADER * k <= at && CutAt(b, at, Frames(b, offset)[k].payload)
    decreases k
  {
    hide Frames, CutAt;
    if k == 0 {
      FirstFrameFits(b, offset);
      at := offset;
    } else {
      var next := LaterFrame(b, offset, k);
      at := FramesFit(b, next, k - 1);
    }
  }

  lemma FirstFrameFits(b: Bytes, offset: nat)
    requires 0 < |Frames(b, offset)|
    ensures CutAt(b, offset, Frames(b, offset)[0].payload)
  {
    hide Word16, Word32;
  }

  lemma LaterFrame(b: Bytes, offset: nat, k: nat) returns (next: nat)
    requires 0 < k < |Frames(b, offset)|
    ensures offset + HEADER <= next && k - 1 < |Frames(b, next)| && Frames(b, offset)[k] == Frames(b, next)[k - 1]
  {
    next := offset + Align(Word32(b, offset));
    hide Word16, Word32;
  }

  datatype Outcome =
    | More(stats: seq<Bytes>)
    | Done(stats: seq<Bytes>)
    | Failed(errno: int)
    | Hangs

  /** Negation of a 32-bit integer, which leaves the smallest one alone. */
  function Negated(n: int): int {
    if n == -0x8000_0000 then n else -n
  }

  function Visit(f: Frame, stats: seq<Bytes>): Outcome {
    if f.kind == NLMSG_ERROR then
      if |f.payload| >= ERROR_BODY && Signed32(f.payload, 0) != 0 then Failed(Negated(Signed32(f.payload, 0)))
      else More(stats)
    else if f.kind == NLMSG_DONE then Done(stats)
    else if f.kind == SOCK_DIAG_BY_FAMILY then
      match Collect(f.payload)
      case Missing => More(stats)
      case Info(data) => More(stats + [data])
      case Stalls => Hangs
    else More(stats)
  }

  /** Each message once, in order, until one of them ends the walk. */
  function Interpret(frames: seq<Frame>, stats: seq<Bytes>): Outcome {
    if frames == [] then More(stats)
    else
      var first := Visit(frames[0], stats);
      if first.More? then Interpret(frames[1..], first.stats) else first
  }

  lemma InterpretFirst(f: Frame, rest: seq<Frame>, stats: seq<Bytes>)
    ensures Interpret([f] + rest, stats)
         == if Visit(f, stats).More? then Interpret(rest, Visit(f, stats).stats) else Visit(f, stats)
  {
    assert ([f] + rest)[0] == f && ([f] + rest)[1..] == rest;
  }

  /** A message after which nothing more is read: the end, an error, or an attribute loop that spins. */
  predicate Ends(f: Frame) {
    || f.kind == NLMSG_DONE
    || (f.kind == NLMSG_ERROR && |f.payload| >= ERROR_BODY && Signed32(f.payload, 0) != 0)
    || (f.kind == SOCK_DIAG_BY_FAMILY && Collect(f.payload) == Stalls)
  }

  /** The statistics a list of messages holds, in order. */
  function Harvest(frames: seq<Frame>): seq<Bytes> {
    if frames == [] then []
    else
      var found := Collect(frames[0].payload);
      (if frames[0].kind == SOCK_DIAG_BY_FAMILY && found.Info? then [found.data] else []) + Harvest(frames[1..])
  }

  /** How a message that ends the walk ends it: an error by the number it carries, negated. */
  function EndOf(f: Frame, stats: seq<Bytes>): Outcome
    requires Ends(f)
  {
    if f.kind == NLMSG_DONE then Done(stats)
    else if f.kind == SOCK_DIAG_BY_FAMILY then Hangs
    else Failed(Negated(Signed32(f.payload, 0)))
  }

  /** The walk harvests everything before the first message that ends it, which decides how. */
  lemma {:induction false} InterpretStopsAtTheFirstEnd(frames: seq<Frame>, stats: seq<Bytes>, k: nat)
    requires k <= |frames| && (forall j | 0 <= j < k :: !Ends(frames[j])) && (k < |frames| ==> Ends(frames[k]))
    ensures Interpret(frames, stats)
         == if k == |frames| then More(stats + Harvest(frames)) else EndOf(frames[k], stats + Harvest(frames[..k]))
    decreases k
  {
    if k == 0 {
      assert stats + [] == stats;
    } else {
      var rest, found := frames[1..], Collect(frames[0].payload);
      var got := if frames[0].kind == SOCK_DIAG_BY_FAMILY && found.Info? then [found.data] else [];
      assert !Ends(frames[0]);
      assert Visit(frames[0], stats) == More(stats + got);
      InterpretStopsAtTheFirstEnd(rest, stats + got, k - 1);
      assert frames[..k][1..] == rest[..k - 1] && frames[..k][0] == frames[0];
      assert Harvest(frames) == got + Harvest(rest) && Harvest(frames[..k]) == got + Harvest(rest[..k - 1]);
      ConcatAssociates(stats, got, Harvest(rest));
      ConcatAssociates(stats, got, Harvest(rest[..k - 1]));
    }
  }

  /** What arrives on the socket. A list that runs out is the receive timeout. */
  datatype Arrival = Datagram(bytes: Bytes) | TimedOut | Broken(errno: int)

  function Replies(arrivals: seq<Arrival>, stats: seq<Bytes>): Outcome {
    if arrivals == [] || arrivals[0].TimedOut? then Done(stats)
    else if arrivals[0].Broken? then Failed(arrivals[0].errno)
    else if arrivals[0].bytes == [] then Done(stats)
    else
      var outcome := Interpret(Frames(arrivals[0].bytes, 0), stats);
      if outcome.More? then Replies(arrivals[1..], outcome.stats) else outcome
  }

  method VisitMessage(kind: nat, payload: Bytes, stats: seq<Bytes>) returns (outcome: Outcome)
    ensures outcome == Visit(Frame(kind, payload), stats)
  {
    if kind == NLMSG_ERROR {
      if |payload| >= ERROR_BODY {
        var error := Signed32(payload, 0);
        if error != 0 {
          return Failed(Negated(error));
        }
      }
    } else if kind == NLMSG_DONE {
      return Done(stats);
    } else if kind == SOCK_DIAG_BY_FAMILY {
      var found := CollectMessage(payload);
      match found
      case Missing =>
      case Info(data) => return More(stats + [data]);
      case Stalls => return Hangs;
    }
    outcome := More(stats);
  }

  /** The message loop over one datagram: every slice it takes is inside the bytes received. */
  method WalkDatagram(b: Bytes, before: seq<Bytes>) returns (outcome: Outcome)
    ensures outcome == Interpret(Frames(b, 0), before)
  {
    hide Visit, Word16, Word32;
    var offset, stats := 0, before;
    while offset + HEADER <= |b|
      invariant Interpret(Frames(b, offset), stats) == Interpret(Frames(b, 0), before)
      decreases |b| - offset
    {
      var len := Word32(b, offset);
      if len < HEADER || offset + len > |b| {
        break;
      }
      var kind, payload := Word16(b, offset + 4), b[offset + HEADER..offset + len];
      InterpretFirst(Frame(kind, payload), Frames(b, offset + Align(len)), stats);
      var visited := VisitMessage(kind, payload, stats);
      if !visited.More? {
        return visited;
      }
      stats := visited.stats;
      offset := offset + Align(len);
    }
    outcome := More(stats);
  }

  method ReadReplies(arrivals: seq<Arrival>) returns (outcome: Outcome)
    ensures outcome == Replies(arrivals, [])
    ensures !outcome.More?
  {
    var stats: seq<Bytes> := [];
    for k := 0 to |arrivals|
      invariant Replies(arrivals[k..], stats) == Replies(arrivals, [])
    {
      assert arrivals[k..][0] == arrivals[k] && arrivals[k..][1..] == arrivals[k + 1..];
      match arrivals[k]
      case TimedOut => return Done(stats);
      case Broken(errno) => return Failed(errno);
      case Datagram(b) =>
        if b == [] {
          return Done(stats);
        }
        var walked := WalkDatagram(b, stats);
        if !walked.More? {
          return walked;
        }
        stats := walked.stats;
    }
    outcome := Done(stats);
  }

  // ----- what a kernel writes

  function Put16(n: nat): (r: Bytes)
    requires n < 0x1_0000
    ensures |r| == 2 && Word16(r, 0) == n
  {
    [n % 0x100, n / 0x100]
  }

  function Put32(n: nat): (r: Bytes)
    requires n < 0x1_0000_0000
    ensures |r| == 4 && Word32(r, 0) == n
  {
    var low, high := Put16(n % 0x1_0000), Put16(n / 0x1_0000);
    assert Word16(low + high, 0) == Word16(low, 0) && Word16(low + high, 2) == Word16(high, 0);
    low + high
  }

  /** The rest of the header and the padding hold anything. */
  datatype Message = Message(kind: nat, rest: Bytes, payload: Bytes, pad: Bytes)

  predicate Encodable(m: Message) {
    m.kind < 0x1_0000 && HEADER + |m.payload| < 0x1_0000_0000
  }

  ghost predicate WellFormed(m: Message) {
    && Encodable(m) && |m.rest| == 10
    && |m.pad| == Align(HEADER + |m.payload|) - (HEADER + |m.payload|)
  }

  function Encode(m: Message): Bytes
    requires Encodable(m)
  {
    Put32(HEADER + |m.payload|) + Put16(m.kind) + m.rest + m.payload + m.pad
  }

  ghost predicate AllWellFormed(messages: seq<Message>) {
    forall k | 0 <= k < |messages| :: WellFormed(messages[k])
  }

  ghost function EncodeAll(messages: seq<Message>): Bytes
    requires AllWellFormed(messages)
  {
    if messages == [] then [] else Encode(messages[0]) + EncodeAll(messages[1..])
  }

  function Framed(messages: seq<Message>): seq<Frame> {
    if messages == [] then [] else [Frame(messages[0].kind, messages[0].payload)] + Framed(messages[1..])
  }

  /** The bytes `x` stand at position `at`. */
  ghost predicate Holds(b: Bytes, at: nat, x: Bytes) {
    at + |x| <= |b| && forall k | 0 <= k < |x| :: b[at + k] == x[k]
  }

  lemma HoldsBoth(b: Bytes, at: nat, x: Bytes, y: Bytes)
    requires Holds(b, at, x + y)
    ensures Holds(b, at, x) && Holds(b, at + |x|, y)
  {
    forall k | 0 <= k < |x| ensures b[at + k] == x[k] {
      assert (x + y)[k] == x[k];
    }
    forall k | 0 <= k < |y| ensures b[at + |x| + k] == y[k] {
      assert (x + y)[|x| + k] == y[k] && b[at + (|x| + k)] == (x + y)[|x| + k];
    }
  }

  lemma HeldWords(b: Bytes, at: nat, x: Bytes)
    requires Holds(b, at, x)
    ensures |x| >= 2 ==> Word16(b, at) == Word16(x, 0)
    ensures |x| >= 4 ==> Word32(b, at) == Word32(x, 0)
  {
    if |x| >= 2 { assert b[at + 0] == x[0] && b[at + 1] == x[1]; }
    if |x| >= 4 { assert b[at + 2] == x[2] && b[at + 3] == x[3]; }
  }

  lemma HeldSlice(b: Bytes, at: nat, x: Bytes)
    requires Holds(b, at, x)
    ensures b[at..at + |x|] == x
  {
  }

  lemma EncodedLength(m: Message)
    requires WellFormed(m)
    ensures |Encode(m)| == Align(HEADER + |m.payload|)
  {
    hide Word16, Word32, Put16, Put32;
  }

  /** The five parts of an encoded message, each at its own place. */
  lemma EncodedParts(b: Bytes, at: nat, m: Message)
    requires WellFormed(m) && Holds(b, at, Encode(m))
    ensures Holds(b, at, Put32(HEADER + |m.payload|)) && Holds(b, at + 4, Put16(m.kind))
    ensures Holds(b, at + HEADER, m.payload)
  {
    var size, kind := Put32(HEADER + |m.payload|), Put16(m.kind);
    assert |size| == 4 && |kind| == 2;
    assert Encode(m) == size + kind + m.rest + m.payload + m.pad;
    hide Holds, Word16, Word32, Put16, Put32, Encode, Align;
    HoldsBoth(b, at, size + kind + m.rest + m.payload, m.pad);
    HoldsBoth(b, at, size + kind + m.rest, m.payload);
    HoldsBoth(b, at, size + kind, m.rest);
    HoldsBoth(b, at, size, kind);
  }

  lemma HeaderReads(b: Bytes, at: nat, len: nat, kind: nat)
    requires len < 0x1_0000_0000 && kind < 0x1_0000
    requires Holds(b, at, Put32(len)) && Holds(b, at + 4, Put16(kind))
    ensures at + 6 <= |b| && Word32(b, at) == len && Word16(b, at + 4) == kind
  {
    var first, second := Put32(len), Put16(kind);
    assert |first| == 4 && |second| == 2;
    hide Word16, Word32, Put16, Put32;
    HeldWords(b, at, first);
    HeldWords(b, at + 4, second);
  }

  /** The frame read at an encoded message is that message. */
  lemma EncodedFrame(b: Bytes, at: nat, m: Message)
    requires WellFormed(m) && Holds(b, at, Encode(m))
    ensures |Encode(m)| == Align(HEADER + |m.payload|)
    ensures Frames(b, at) == [Frame(m.kind, m.payload)] + Frames(b, at + |Encode(m)|)
  {
    EncodedLength(m);
    EncodedParts(b, at, m);
    HeaderReads(b, at, HEADER + |m.payload|, m.kind);
    HeldSlice(b, at + HEADER, m.payload);
    assert at + HEADER + |m.payload| <= |b|;
    hide *;
    FrameAt(b, at, m.kind, m.payload);
  }

  lemma FrameAt(b: Bytes, at: nat, kind: nat, payload: Bytes)
    requires at + HEADER + |payload| <= |b| && Word32(b, at) == HEADER + |payload|
    requires Word16(b, at + 4) == kind && b[at + HEADER..at + HEADER + |payload|] == payload
    ensures Frames(b, at) == [Frame(kind, payload)] + Frames(b, at + Align(HEADER + |payload|))
  {
    hide Word16, Word32;
  }

  lemma FirstIsHeld(b: Bytes, at: nat, messages: seq<Message>)
    requires AllWellFormed(messages) && messages != [] && Holds(b, at, EncodeAll(messages))
    ensures Holds(b, at, Encode(messages[0])) && AllWellFormed(messages[1..])
    ensures Holds(b, at + |Encode(messages[0])|, EncodeAll(messages[1..]))
    ensures |EncodeAll(messages)| == |Encode(messages[0])| + |EncodeAll(messages[1..])|
  {
    HoldsBoth(b, at, Encode(messages[0]), EncodeAll(messages[1..]));
    hide Encode, Holds;
  }

  lemma NoMoreFrames(b: Bytes, at: nat, messages: seq<Message>)
    requires messages == [] && |b| < at + |EncodeAll(messages)| + HEADER
    ensures Frames(b, at) == [] == Framed(messages)
  {
  }

  lemma FramedFirst(messages: seq<Message>)
    requires messages != []
    ensures Framed(messages) == [Frame(messages[0].kind, messages[0].payload)] + Framed(messages[1..])
  {
  }

  lemma {:induction false} FramesReadBackAt(b: Bytes, at: nat, messages: seq<Message>)
    requires AllWellFormed(messages) && Holds(b, at, EncodeAll(messages))
    requires |b| < at + |EncodeAll(messages)| + HEADER
    ensures Frames(b, at) == Framed(messages)
    decreases |messages|
  {
    if messages == [] {
      NoMoreFrames(b, at, messages);
    } else {
      assert WellFormed(messages[0]) && Encodable(messages[0]);
      hide Encode, EncodeAll, Frames, Framed, Encodable, WellFormed, AllWellFormed, Holds, Align;
      FirstIsHeld(b, at, messages);
      EncodedFrame(b, at, messages[0]);
      FramesReadBackAt(b, at + |Encode(messages[0])|, messages[1..]);
      FramedFirst(messages);
    }
  }

  /** A datagram of well-formed padded messages yields each payload once and in order. */
  lemma FramesReadBack(messages: seq<Message>, tail: Bytes)
    requires AllWellFormed(messages) && |tail| < HEADER
    ensures Frames(EncodeAll(messages) + tail, 0) == Framed(messages)
  {
    hide Frames, EncodeAll, Framed, AllWellFormed;
    FramesReadBackAt(EncodeAll(messages) + tail, 0, messages);
  }

  lemma {:induction false} FramedSplits(a: seq<Message>, b: seq<Message>)
    ensures Framed(a + b) == Framed(a) + Framed(b)
    decreases |a|
  {
    if a == [] {
      ConcatNothing(b);
      ConcatNothing(Framed(b));
    } else {
      hide Framed;
      FramedSplits(a[1..], b);
      ConcatTail(a, b);
      FramedFirst(a);
      FramedFirst(a + b);
      ConcatAssociates([Frame(a[0].kind, a[0].payload)], Framed(a[1..]), Framed(b));
    }
  }

  /** How a dump was cut into datagrams does not show. */
  function Flatten(chunks: seq<seq<Message>>): seq<Message> {
    if chunks == [] then [] else chunks[0] + Flatten(chunks[1..])
  }

  ghost predicate Chunks(chunks: seq<seq<Message>>) {
    forall k | 0 <= k < |chunks| :: chunks[k] != [] && AllWellFormed(chunks[k])
  }

  ghost function Dump(chunks: seq<seq<Message>>): seq<Arrival>
    requires Chunks(chunks)
  {
    seq(|chunks|, k requires 0 <= k < |chunks| => Datagram(EncodeAll(chunks[k])))
  }

  lemma EncodingsAreNotEmpty(messages: seq<Message>)
    requires AllWellFormed(messages) && messages != []
    ensures EncodeAll(messages) != []
  {
    assert Encode(messages[0]) != [];
  }

  /** The kernel reports an error as its number negated, in two's complement; the walk fails with that number. */
  lemma ErrorsReadBack(errno: int, rest: Bytes, stats: seq<Bytes>)
    requires 0 < errno <= 0x8000_0000 && 4 + |rest| >= ERROR_BODY
    ensures Visit(Frame(NLMSG_ERROR, Put32(0x1_0000_0000 - errno) + rest), stats)
         == Failed(if errno == 0x8000_0000 then -errno else errno)
    ensures Visit(Frame(NLMSG_ERROR, Put32(0) + rest), stats) == More(stats)
  {
    forall n: nat | n < 0x1_0000_0000 ensures Word32(Put32(n) + rest, 0) == n {
      assert Word16(Put32(n) + rest, 0) == Word16(Put32(n), 0) && Word16(Put32(n) + rest, 2) == Word16(Put32(n), 2);
    }
    hide Put32, Word32;
  }

  function Ended(outcome: Outcome): Outcome {
    if outcome.More? then Done(outcome.stats) else outcome
  }

  lemma {:induction false} InterpretSplits(a: seq<Frame>, b: seq<Frame>, stats: seq<Bytes>)
    ensures Interpret(a + b, stats)
         == if Interpret(a, stats).More? then Interpret(b, Interpret(a, stats).stats) else Interpret(a, stats)
    decreases |a|
  {
    if a == [] {
      assert a + b == b;
    } else {
      assert (a + b)[0] == a[0] && (a + b)[1..] == a[1..] + b;
      if Visit(a[0], stats).More? {
        InterpretSplits(a[1..], b, Visit(a[0], stats).stats);
      }
    }
  }

  /** A pause longer than the timeout, an error of the socket, or an empty datagram. */
  predicate Cuts(a: Arrival) {
    !a.Datagram? || a.bytes == []
  }

  lemma {:induction false} RepliesGoOn(chunks: seq<seq<Message>>, later: seq<Arrival>, stats: seq<Bytes>)
    requires Chunks(chunks)
    ensures Replies(Dump(chunks) + later, stats)
         == var walked := Interpret(Framed(Flatten(chunks)), stats);
            if walked.More? then Replies(later, walked.stats) else walked
    decreases |chunks|
  {
    if chunks == [] {
      assert Dump(chunks) + later == later;
    } else {
      var first := EncodeAll(chunks[0]);
      FramesReadBack(chunks[0], []);
      assert first + [] == first;
      EncodingsAreNotEmpty(chunks[0]);
      hide EncodeAll, Encode, Frames, AllWellFormed, Visit;
      InterpretSplits(Framed(chunks[0]), Framed(Flatten(chunks[1..])), stats);
      FramedSplits(chunks[0], Flatten(chunks[1..]));
      assert Dump(chunks)[1..] == Dump(chunks[1..]);
      assert (Dump(chunks) + later)[1..] == Dump(chunks[1..]) + later;
      var outcome := Interpret(Framed(chunks[0]), stats);
      if outcome.More? {
        RepliesGoOn(chunks[1..], later, outcome.stats);
      }
    }
  }

  lemma DumpsAreReadThrough(chunks: seq<seq<Message>>, stats: seq<Bytes>)
    requires Chunks(chunks)
    ensures Replies(Dump(chunks), stats) == Ended(Interpret(Framed(Flatten(chunks)), stats))
  {
    RepliesGoOn(chunks, [], stats);
    assert Dump(chunks) + [] == Dump(chunks);
    hide Interpret, Framed, Flatten, Dump;
  }

  /**
   A dump that stops short of its end, by a pause, an error or an empty datagram: the
   error fails the read, anything else leaves what was harvested; nothing after it counts.
   */
  lemma CutDumpsEnd(chunks: seq<seq<Message>>, cut: Arrival, later: seq<Arrival>, stats: seq<Bytes>)
    requires Chunks(chunks) && Cuts(cut)
    ensures Replies(Dump(chunks) + [cut] + later, stats)
         == var walked := Interpret(Framed(Flatten(chunks)), stats);
            if walked.More? then (if cut.Broken? then Failed(cut.errno) else Done(walked.stats)) else walked
  {
    assert Dump(chunks) + [cut] + later == Dump(chunks) + ([cut] + later);
    RepliesGoOn(chunks, [cut] + later, stats);
    assert ([cut] + later)[0] == cut;
    hide Interpret, Framed, Flatten, Dump;
  }

  datatype Attr = Attr(kind: nat, data: Bytes, pad: Bytes)

  ghost predicate WellFormedAttr(a: Attr) {
    a.kind < 0x1_0000 && 4 + |a.data| < 0x1_0000 && |a.pad| == Align(4 + |a.data|) - (4 + |a.data|)
  }

  function EncodeAttr(a: Attr): Bytes
    requires a.kind < 0x1_0000 && 4 + |a.data| < 0x1_0000
  {
    Put16(4 + |a.data|) + Put16(a.kind) + a.data + a.pad
  }

  ghost predicate AllWellFormedAttrs(attrs: seq<Attr>) {
    forall k | 0 <= k < |attrs| :: WellFormedAttr(attrs[k])
  }

  ghost function EncodeAttrs(attrs: seq<Attr>): Bytes
    requires AllWellFormedAttrs(attrs)
  {
    if attrs == [] then [] else EncodeAttr(attrs[0]) + EncodeAttrs(attrs[1..])
  }

  function FirstInfo(attrs: seq<Attr>): Found {
    if attrs == [] then Missing
    else if attrs[0].kind == INET_DIAG_INFO then Info(attrs[0].data)
    else FirstInfo(attrs[1..])
  }

  lemma EncodedAttr(b: Bytes, at: nat, a: Attr)
    requires WellFormedAttr(a) && Holds(b, at, EncodeAttr(a))
    ensures |EncodeAttr(a)| == Align(4 + |a.data|) > 0
    ensures AttrTurn(b, at) == if a.kind == INET_DIAG_INFO then Stop(Info(a.data)) else Advance(at + |EncodeAttr(a)|)
  {
    var size, kind := Put16(4 + |a.data|), Put16(a.kind);
    HoldsBoth(b, at, size + kind + a.data, a.pad);
    HoldsBoth(b, at, size + kind, a.data);
    HoldsBoth(b, at, size, kind);
    HeldWords(b, at, size);
    HeldWords(b, at + 2, kind);
    HeldSlice(b, at + 4, a.data);
    hide Holds, Word16, Put16;
  }

  lemma {:induction false} ScanFindsTheFirstInfo(b: Bytes, at: nat, attrs: seq<Attr>)
    requires AllWellFormedAttrs(attrs) && Holds(b, at, EncodeAttrs(attrs)) && |b| == at + |EncodeAttrs(attrs)|
    ensures Scan(b, at) == FirstInfo(attrs)
    decreases |attrs|
  {
    if attrs == [] {
    } else {
      var a, rest := attrs[0], attrs[1..];
      HoldsBoth(b, at, EncodeAttr(a), EncodeAttrs(rest));
      EncodedAttr(b, at, a);
      hide EncodeAttr, AttrTurn, WellFormedAttr, Holds, Align;
      ScanFindsTheFirstInfo(b, at + |EncodeAttr(a)|, rest);
    }
  }

  /** A well-formed reply yields the first info attribute of an established socket, and nothing else. */
  lemma ReplyYieldsItsFirstInfo(body: Bytes, attrs: seq<Attr>)
    requires |body| == DIAG_BODY && AllWellFormedAttrs(attrs)
    ensures Collect(body + EncodeAttrs(attrs))
         == if body[1] == TCP_ESTABLISHED then FirstInfo(attrs) else Missing
  {
    hide Scan, EncodeAttrs, FirstInfo, AllWellFormedAttrs;
    ScanFindsTheFirstInfo(body + EncodeAttrs(attrs), DIAG_BODY, attrs);
  }

  /** A reply of 76 bytes, an established socket and four zero bytes after it, is enough to spin for ever. */
  lemma ZeroLengthAttributeHangs(body: Bytes)
    requires |body| == DIAG_BODY && body[1] == TCP_ESTABLISHED
    ensures Collect(body + [0, 0, 0, 0]) == Stalls
    ensures forall turns :: Turns(body + [0, 0, 0, 0], Align(DIAG_BODY), turns).Advance?
  {
    var reply := body + [0, 0, 0, 0];
    assert ZeroLength(reply, DIAG_BODY);
    assert Turns(reply, DIAG_BODY, 0) == Advance(DIAG_BODY);
    ZeroLengthStalls(reply, DIAG_BODY, 0, DIAG_BODY);
    hide Scan, Turns, AttrTurn;
    LoopsForeverExactlyOnStall(reply, DIAG_BODY);
  }
}
