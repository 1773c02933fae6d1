/** The durability file of the reference daemon (src/durable.rs): length-prefixed frames,
    a writer that rolls back or poisons itself, and a replay that cuts off a torn tail. */
module Durable {
  import opened OrderKeys
  import opened Logs

  const TWO_TO_THE_32 := 0x1_0000_0000

  type Bytes = seq<Byte>

  /** Envelope encoding, as abstract functions. */
  datatype Codec = Codec(encode: SignedOp -> Bytes, decode: Bytes -> Option<SignedOp>)
  {
    ghost predicate RoundTrips() {
      forall op :: decode(encode(op)) == Some(op)
    }
  }

  /** `u32::to_le_bytes` of a length cast to 32 bits. */
  function LittleEndian(n: nat): (r: Bytes)
    ensures |r| == 4
  {
    [(n % 256) as Byte, (n / 256 % 256) as Byte, (n / 65536 % 256) as Byte, (n / 16777216 % 256) as Byte]
  }

  function FromLittleEndian(b: Bytes): (n: nat)
    requires |b| == 4
    ensures n < TWO_TO_THE_32
  {
    b[0] as nat + 256 * b[1] as nat + 65536 * b[2] as nat + 16777216 * b[3] as nat
  }

  lemma LengthIsTruncated(n: nat)
    ensures FromLittleEndian(LittleEndian(n)) == n % TWO_TO_THE_32
  {
    var a, b, c := n / 256, n / 65536, n / 16777216;
    assert b == a / 256 && c == b / 256;
  }

  function Frame(codec: Codec, op: SignedOp): Bytes {
    var bytes := codec.encode(op);
    LittleEndian(|bytes|) + bytes
  }

  function Frames(codec: Codec, ops: seq<SignedOp>): Bytes {
    if ops == [] then [] else Frames(codec, ops[..|ops| - 1]) + Frame(codec, ops[|ops| - 1])
  }

  ghost predicate FitsFrame(codec: Codec, op: SignedOp) {
    |codec.encode(op)| < TWO_TO_THE_32
  }

  /** What a write that did not finish leaves behind. */
  ghost predicate Torn(codec: Codec, tail: Bytes) {
    tail == [] || exists op :: FitsFrame(codec, op) && tail < Frame(codec, op)
  }

  // ------------------------------------------------------------------- reading

  datatype Parsed = Parsed(ops: seq<SignedOp>, end: nat)

  /** The op of one complete frame at the start of `bytes`, with the bytes it takes. */
  function FirstFrame(codec: Codec, bytes: Bytes): Option<(SignedOp, nat)> {
    if |bytes| < 4 then None
    else
      var len := FromLittleEndian(bytes[..4]);
      if |bytes| < 4 + len then None
      else
        match codec.decode(bytes[4..4 + len])
        case None => None
        case Some(op) => Some((op, 4 + len))
  }

  /** Frames from the start until one is cut short or does not decode. */
  function Parse(codec: Codec, bytes: Bytes): (p: Parsed)
    ensures p.end <= |bytes|
    decreases |bytes|
  {
    match FirstFrame(codec, bytes)
    case None => Parsed([], 0)
    case Some((op, n)) =>
      var rest := Parse(codec, bytes[n..]);
      Parsed([op] + rest.ops, n + rest.end)
  }

  /** What goes wrong while reading: nothing, the length of frame `k`, or its body. */
  datatype Trouble = Smooth | BadLength(k: nat) | BadBody(k: nat)

  /** At most `k` frames from the start. */
  function ReadUpTo(codec: Codec, bytes: Bytes, k: nat): (p: Parsed)
    ensures p.end <= |bytes| && |p.ops| <= k
    decreases k
  {
    if k == 0 then Parsed([], 0)
    else
      match FirstFrame(codec, bytes)
      case None => Parsed([], 0)
      case Some((op, n)) =>
        var rest := ReadUpTo(codec, bytes[n..], k - 1);
        Parsed([op] + rest.ops, n + rest.end)
  }

  function ReadWith(codec: Codec, bytes: Bytes, t: Trouble): (p: Parsed)
    ensures p.end <= |bytes|
  {
    if t.Smooth? then Parse(codec, bytes) else ReadUpTo(codec, bytes, t.k)
  }

  /** How many of `n` frames are read. */
  function Readable(t: Trouble, n: nat): (m: nat)
    ensures m <= n
  {
    if t.Smooth? || n < t.k then n else t.k
  }

  lemma FirstFrameOf(codec: Codec, op: SignedOp, rest: Bytes)
    requires codec.RoundTrips() && FitsFrame(codec, op)
    ensures FirstFrame(codec, Frame(codec, op) + rest) == Some((op, |Frame(codec, op)|))
  {
    hide LittleEndian;
    hide FromLittleEndian;
    var bytes, all := codec.encode(op), Frame(codec, op) + rest;
    LengthIsTruncated(|bytes|);
    assert all[..4] == LittleEndian(|bytes|);
    assert all[4..4 + |bytes|] == bytes;
  }

  /** A proper part of a frame is never taken for one. */
  lemma TornIsNoFrame(codec: Codec, tail: Bytes)
    requires Torn(codec, tail)
    ensures FirstFrame(codec, tail).None?
  {
    hide LittleEndian;
    hide FromLittleEndian;
    if tail != [] {
      var op :| FitsFrame(codec, op) && tail < Frame(codec, op);
      var bytes := codec.encode(op);
      LengthIsTruncated(|bytes|);
      if |tail| >= 4 {
        assert tail[..4] == Frame(codec, op)[..4] == LittleEndian(|bytes|);
      }
    }
  }

  lemma {:induction false} FramesConcat(codec: Codec, a: seq<SignedOp>, b: seq<SignedOp>)
    ensures Frames(codec, a + b) == Frames(codec, a) + Frames(codec, b)
  {
    hide Frame;
    if b == [] {
      assert a + b == a;
    } else {
      var init, last := b[..|b| - 1], Frame(codec, b[|b| - 1]);
      FramesConcat(codec, a, init);
      assert (a + b)[..|a + b| - 1] == a + init;
      assert (Frames(codec, a) + Frames(codec, init)) + last == Frames(codec, a) + (Frames(codec, init) + last);
    }
  }

  /** Reading stops where no frame starts. */
  lemma {:induction false} ParseStops(codec: Codec, ops: seq<SignedOp>, tail: Bytes)
    requires codec.RoundTrips() && FirstFrame(codec, tail).None? && forall op | op in ops :: FitsFrame(codec, op)
    ensures Parse(codec, Frames(codec, ops) + tail) == Parsed(ops, |Frames(codec, ops)|)
  {
    hide FirstFrame;
    hide FitsFrame;
    if ops == [] {
      assert Frames(codec, ops) + tail == tail;
    } else {
      FrameFirst(codec, ops, tail);
      ParseStops(codec, ops[1..], tail);
    }
  }

  /** Taking the first frame off. */
  lemma FrameFirst(codec: Codec, ops: seq<SignedOp>, tail: Bytes)
    requires codec.RoundTrips() && ops != [] && forall op | op in ops :: FitsFrame(codec, op)
    ensures var all, frame, after := Frames(codec, ops) + tail, Frame(codec, ops[0]), Frames(codec, ops[1..]) + tail;
            && FirstFrame(codec, all) == Some((ops[0], |frame|)) && |frame| <= |all| && all[|frame|..] == after
            && |Frames(codec, ops)| == |frame| + |Frames(codec, ops[1..])|
  {
    hide FirstFrame;
    hide Frames;
    hide Frame;
    FramesCons(codec, ops);
    assert ops[0] in ops;
    var frame, rest := Frame(codec, ops[0]), Frames(codec, ops[1..]);
    Regroup(frame, rest, tail);
    FirstFrameOf(codec, ops[0], rest + tail);
  }

  lemma FramesCons(codec: Codec, ops: seq<SignedOp>)
    requires ops != []
    ensures Frames(codec, ops) == Frame(codec, ops[0]) + Frames(codec, ops[1..])
  {
    hide Frame;
    assert ops == [ops[0]] + ops[1..];
    FramesConcat(codec, [ops[0]], ops[1..]);
    OneFrame(codec, ops[0]);
  }

  lemma Regroup(a: Bytes, b: Bytes, c: Bytes)
    ensures (a + b) + c == a + (b + c) && (a + (b + c))[|a|..] == b + c
  {
  }

  /** Replay reads back exactly the complete frames, and stops at the tear. */
  lemma ParseReadsFrames(codec: Codec, ops: seq<SignedOp>, tail: Bytes)
    requires codec.RoundTrips() && Torn(codec, tail) && forall op | op in ops :: FitsFrame(codec, op)
    ensures Parse(codec, Frames(codec, ops) + tail) == Parsed(ops, |Frames(codec, ops)|)
  {
    TornIsNoFrame(codec, tail);
    ParseStops(codec, ops, tail);
  }

  lemma OneFrame(codec: Codec, op: SignedOp)
    ensures Frames(codec, [op]) == Frame(codec, op)
  {
  }

  /** A frame reads back as the op it was written for exactly when its length survives
      the cast to 32 bits. */
  lemma FrameRoundTrip(codec: Codec, op: SignedOp)
    requires codec.RoundTrips()
    ensures Parse(codec, Frame(codec, op)) == Parsed([op], |Frame(codec, op)|) <==> |codec.encode(op)| < TWO_TO_THE_32
  {
    hide LittleEndian;
    hide FromLittleEndian;
    var bytes, frame := codec.encode(op), Frame(codec, op);
    LengthIsTruncated(|bytes|);
    assert frame[..4] == LittleEndian(|bytes|);
    if FitsFrame(codec, op) {
      OneFrame(codec, op);
      assert Frames(codec, [op]) + [] == frame;
      ParseReadsFrames(codec, [op], []);
    } else if Parse(codec, frame).ops == [op] {
      var n := FirstFrame(codec, frame).value.1;
      assert n < |frame|;
      assert Parse(codec, frame[n..]).ops == [];
      NoOpsNoBytes(codec, frame[n..]);
    }
  }

  lemma NoOpsNoBytes(codec: Codec, bytes: Bytes)
    ensures Parse(codec, bytes).ops == [] ==> Parse(codec, bytes).end == 0
  {
  }

  /** Whatever prefix of the file a crash leaves is whole frames and a torn one. */
  lemma {:induction false} PrefixOfFrames(codec: Codec, ops: seq<SignedOp>, tail: Bytes, n: nat) returns (k: nat, torn: Bytes)
    requires Torn(codec, tail) && (forall op | op in ops :: FitsFrame(codec, op))
    requires n <= |Frames(codec, ops) + tail|
    ensures k <= |ops| && Torn(codec, torn)
    ensures (Frames(codec, ops) + tail)[..n] == Frames(codec, ops[..k]) + torn
    decreases |ops|
  {
    hide Frame;
    hide Torn;
    hide FitsFrame;
    if n >= |Frames(codec, ops)| {
      k, torn := |ops|, tail[..n - |Frames(codec, ops)|];
      assert ops[..k] == ops;
      PrefixOfTorn(codec, tail, |torn|);
    } else {
      var init, last := ops[..|ops| - 1], ops[|ops| - 1];
      assert last in ops;
      var m := n - |Frames(codec, init)|;
      if m >= 0 {
        PrefixIsTorn(codec, last, m);
        k, torn := |init|, Frame(codec, last)[..m];
      } else {
        NothingTorn(codec);
        k, torn := PrefixOfFrames(codec, init, [], n);
        assert ops[..k] == init[..k];
      }
    }
  }

  lemma NothingTorn(codec: Codec)
    ensures Torn(codec, [])
  {
  }

  lemma PrefixIsTorn(codec: Codec, op: SignedOp, n: nat)
    requires FitsFrame(codec, op) && n < |Frame(codec, op)|
    ensures Torn(codec, Frame(codec, op)[..n])
  {
  }

  lemma PrefixOfTorn(codec: Codec, tail: Bytes, n: nat)
    requires Torn(codec, tail) && n <= |tail|
    ensures Torn(codec, tail[..n])
  {
  }

  /** Bytes that are whole frames, then perhaps part of one. */
  ghost predicate Holds(codec: Codec, bytes: Bytes, stored: seq<SignedOp>, torn: Bytes) {
    && bytes == Frames(codec, stored) + torn && Torn(codec, torn)
    && forall op | op in stored :: FitsFrame(codec, op)
  }

  /** No complete frame follows a torn one. */
  ghost predicate Tidy(codec: Codec, bytes: Bytes) {
    exists stored, torn :: Holds(codec, bytes, stored, torn)
  }

  ghost predicate Clean(codec: Codec, bytes: Bytes) {
    exists stored :: Holds(codec, bytes, stored, [])
  }

  lemma HoldsReads(codec: Codec, bytes: Bytes, stored: seq<SignedOp>, torn: Bytes)
    requires codec.RoundTrips() && Holds(codec, bytes, stored, torn)
    ensures Parse(codec, bytes) == Parsed(stored, |Frames(codec, stored)|)
  {
    ParseReadsFrames(codec, stored, torn);
  }

  lemma CleanIsTidy(codec: Codec, bytes: Bytes)
    requires Clean(codec, bytes)
    ensures Tidy(codec, bytes)
  {
  }

  lemma HoldsPrefix(codec: Codec, bytes: Bytes, stored: seq<SignedOp>, torn: Bytes, n: nat) returns (k: nat, torn': Bytes)
    requires Holds(codec, bytes, stored, torn) && n <= |bytes|
    ensures k <= |stored| && Holds(codec, bytes[..n], stored[..k], torn')
  {
    k, torn' := PrefixOfFrames(codec, stored, torn, n);
  }

  /** A prefix of a tidy file is tidy, and a longer one reads as more of the same ops. */
  lemma PrefixReads(codec: Codec, bytes: Bytes, m: nat, n: nat)
    requires codec.RoundTrips() && Tidy(codec, bytes) && m <= n <= |bytes|
    ensures Tidy(codec, bytes[..n]) && Parse(codec, bytes[..m]).ops <= Parse(codec, bytes[..n]).ops
  {
    hide Holds;
    hide Parse;
    var stored, torn :| Holds(codec, bytes, stored, torn);
    var k, torn' := HoldsPrefix(codec, bytes, stored, torn, n);
    HoldsReads(codec, bytes[..n], stored[..k], torn');
    var j, torn'' := HoldsPrefix(codec, bytes[..n], stored[..k], torn', m);
    assert bytes[..n][..m] == bytes[..m];
    HoldsReads(codec, bytes[..m], stored[..k][..j], torn'');
  }

  lemma FrameWhole(codec: Codec, bytes: Bytes, stored: seq<SignedOp>, op: SignedOp)
    requires Holds(codec, bytes, stored, []) && FitsFrame(codec, op)
    ensures Holds(codec, bytes + Frame(codec, op), stored + [op], [])
  {
  }

  lemma FramePart(codec: Codec, bytes: Bytes, stored: seq<SignedOp>, op: SignedOp, n: nat)
    requires Holds(codec, bytes, stored, []) && FitsFrame(codec, op) && n < |Frame(codec, op)|
    ensures Holds(codec, bytes + Frame(codec, op)[..n], stored, Frame(codec, op)[..n])
  {
  }

  // ---------------------------------------------------------------- one append

  /** The file and its writer: the bytes, how many of them have reached the disk, where the
      writer stands, and whether it has given up. */
  datatype File = File(bytes: Bytes, safe: nat, pos: nat, poisoned: bool, open: bool)

  /** Write `data` at `pos`, filling a gap with zeroes. */
  function WrittenAt(bytes: Bytes, pos: nat, data: Bytes): (r: Bytes)
    ensures |r| >= |bytes|
  {
    var before := if pos <= |bytes| then bytes[..pos] else bytes + seq(pos - |bytes|, i => 0 as Byte);
    before + data + (if pos + |data| <= |bytes| then bytes[pos + |data|..] else [])
  }

  lemma WrittenAtEnd(bytes: Bytes, data: Bytes)
    ensures WrittenAt(bytes, |bytes|, data) == bytes + data
  {
  }

  /** What the file system does to one append: whether the length can be read, how many
      bytes of the frame arrive if writing fails, and whether truncating and seeking work. */
  datatype Fate = Fate(stat: bool, intact: bool, wrote: nat, cut: bool, sought: bool)

  /** How many bytes of a frame arrive. */
  function Arrived(frame: Bytes, fate: Fate): (n: nat)
    ensures n <= |frame|
  {
    if fate.intact || fate.wrote > |frame| then |frame| else fate.wrote
  }

  predicate Succeeds(f: File, fate: Fate) {
    !f.poisoned && fate.stat && fate.intact
  }

  /** `append` of one frame. */
  function Wrote(f: File, frame: Bytes, fate: Fate): File {
    if f.poisoned || !fate.stat then f
    else
      var n := Arrived(frame, fate);
      var grown := WrittenAt(f.bytes, f.pos, frame[..n]);
      if fate.intact then f.(bytes := grown, pos := f.pos + n)
      else
        f.(bytes := if fate.cut then grown[..|f.bytes|] else grown,
           pos := if fate.cut && fate.sought then |f.bytes| else f.pos + n,
           poisoned := !(fate.cut && fate.sought))
  }

  datatype AppendResult = Written | Poisoned | Failed

  class Disk {
    var bytes: Bytes
    var safe: nat

    constructor ()
      ensures bytes == [] && safe == 0
    {
      bytes, safe := [], 0;
    }
  }

  class OplogWriter {
    const disk: Disk
    var pos: nat
    var poisoned: bool

    /** `open`: at the end of the file as it is. */
    constructor (disk: Disk)
      ensures this.disk == disk && pos == |disk.bytes| && !poisoned
    {
      this.disk, pos, poisoned := disk, |disk.bytes|, false;
    }

    function View(): File
      reads this, disk
    {
      File(disk.bytes, disk.safe, pos, poisoned, true)
    }

    /** `append`: refused once poisoned; a failed write is rolled back or poisons. */
    method Append(codec: Codec, op: SignedOp, fate: Fate) returns (r: AppendResult)
      modifies this, disk
      ensures View() == Wrote(old(View()), Frame(codec, op), fate)
      ensures r == Poisoned <==> old(poisoned)
      ensures r == Written <==> Succeeds(old(View()), fate)
    {
      hide WrittenAt;
      hide Frame;
      if poisoned {
        return Poisoned;
      }
      if !fate.stat {
        return Failed;
      }
      var start := |disk.bytes|;
      var frame := Frame(codec, op);
      var n := Arrived(frame, fate);
      disk.bytes := WrittenAt(disk.bytes, pos, frame[..n]);
      pos := pos + n;
      if fate.intact {
        return Written;
      }
      var rolledBack := false;
      if fate.cut {
        disk.bytes := disk.bytes[..start];
        if fate.sought {
          pos := start;
          rolledBack := true;
        }
      }
      if !rolledBack {
        poisoned := true;
      }
      r := Failed;
    }

    /** `sync_after_batch`. */
    method SyncAfterBatch(works: bool) returns (ok: bool)
      modifies disk`safe
      ensures ok == works
      ensures View() == if works then old(View()).(safe := |old(disk.bytes)|) else old(View())
    {
      if works {
        disk.safe := |disk.bytes|;
      }
      ok := works;
    }
  }

  // -------------------------------------------------------------- all histories

  datatype Step =
    | Write(op: SignedOp, fate: Fate)        // append
    | Sync(works: bool)                      // sync_after_batch
    | Crash(n: nat)                          // the process ends; `n` bytes are left
    | Recover(t: Trouble, cuts: bool)        // replay, then open
    | Reread(t: Trouble, cuts: bool)         // replay again beside the open writer

  /** A crash keeps what was synced and any prefix of the rest. */
  ghost predicate Enabled(codec: Codec, f: File, step: Step) {
    match step
    case Write(op, _) => f.open && FitsFrame(codec, op)
    case Sync(_) => f.open
    case Crash(n) => f.safe <= n <= |f.bytes|
    case Recover(_, _) => !f.open
    case Reread(_, _) => f.open
  }

  function MinNat(a: nat, b: nat): nat {
    if a < b then a else b
  }

  /** The process ends on a length it cannot read and on a cut that does not work. A body it
      cannot read it takes for a torn tail. */
  predicate ReplayFails(codec: Codec, bytes: Bytes, t: Trouble, cuts: bool) {
    || (t.BadLength? && t.k <= |Parse(codec, bytes).ops|)
    || (!cuts && ReadWith(codec, bytes, t).end < |bytes|)
  }

  /** The file cut where reading ended. */
  function Cut(codec: Codec, f: File, t: Trouble): File {
    var end := ReadWith(codec, f.bytes, t).end;
    f.(bytes := f.bytes[..end], safe := MinNat(f.safe, end))
  }

  /** The file after `replay_oplog_file` has cut it and `open` stands at its end. */
  function Recovered(codec: Codec, f: File, t: Trouble, cuts: bool): File {
    if ReplayFails(codec, f.bytes, t, cuts) then f
    else
      var g := Cut(codec, f, t);
      g.(pos := |g.bytes|, poisoned := false, open := true)
  }

  ghost function Next(codec: Codec, f: File, step: Step): File
    requires Enabled(codec, f, step)
  {
    match step
    case Write(op, fate) => Wrote(f, Frame(codec, op), fate)
    case Sync(works) => if works then f.(safe := |f.bytes|) else f
    case Crash(n) => f.(bytes := f.bytes[..n], open := false)
    case Recover(t, cuts) => Recovered(codec, f, t, cuts)
    case Reread(t, cuts) => if ReplayFails(codec, f.bytes, t, cuts) then f.(open := false) else Cut(codec, f, t)
  }

  /** The ops a replay of the file would read. */
  function Stored(codec: Codec, f: File): seq<SignedOp> {
    Parse(codec, f.bytes).ops
  }

  /** The ops a replay would read from what has reached the disk. */
  function Kept(codec: Codec, f: File): seq<SignedOp> {
    Parse(codec, f.bytes[..MinNat(f.safe, |f.bytes|)]).ops
  }

  /** The file is tidy, and a writer that has not given up stands at the end of whole
      frames. */
  ghost predicate Inv(codec: Codec, f: File) {
    && Tidy(codec, f.bytes) && f.safe <= |f.bytes|
    && (f.open && !f.poisoned ==> Clean(codec, f.bytes) && f.pos == |f.bytes|)
  }

  /** What one append does to the file of a writer that stands at its end. */
  lemma WroteShape(f: File, frame: Bytes, fate: Fate)
    requires f.pos == |f.bytes| && !f.poisoned
    ensures var f', n := Wrote(f, frame, fate), Arrived(frame, fate);
            && f'.safe == f.safe && f'.open == f.open && f.bytes <= f'.bytes
            && f'.bytes == (if fate.stat && (fate.intact || !fate.cut) then f.bytes + frame[..n] else f.bytes)
            && (!f'.poisoned ==> f'.pos == |f'.bytes| && f'.bytes == if Succeeds(f, fate) then f.bytes + frame else f.bytes)
            && (Succeeds(f, fate) ==> !f'.poisoned)
  {
    hide WrittenAt;
    var n := Arrived(frame, fate);
    WrittenAtEnd(f.bytes, frame[..n]);
    assert (f.bytes + frame[..n])[..|f.bytes|] == f.bytes;
    assert n == |frame| ==> frame[..n] == frame;
  }

  /** Adding any part of a frame to whole frames leaves the file tidy. */
  lemma PartIsTidy(codec: Codec, bytes: Bytes, op: SignedOp, n: nat)
    requires codec.RoundTrips() && Clean(codec, bytes) && FitsFrame(codec, op) && n <= |Frame(codec, op)|
    ensures var bytes', ops := bytes + Frame(codec, op)[..n], Parse(codec, bytes).ops;
            && Tidy(codec, bytes') && Parse(codec, bytes').ops == (if n == |Frame(codec, op)| then ops + [op] else ops)
            && (n == |Frame(codec, op)| ==> Clean(codec, bytes'))
  {
    hide Holds;
    hide Frame;
    hide FitsFrame;
    var stored :| Holds(codec, bytes, stored, []);
    HoldsReads(codec, bytes, stored, []);
    var frame := Frame(codec, op);
    if n == |frame| {
      assert frame[..n] == frame;
      FrameWhole(codec, bytes, stored, op);
      HoldsReads(codec, bytes + frame, stored + [op], []);
    } else {
      FramePart(codec, bytes, stored, op, n);
      HoldsReads(codec, bytes + frame[..n], stored, frame[..n]);
    }
  }

  /** One append: the whole frame, or no trace of it, or a writer that will not write
      again. */
  lemma WriteKeepsInv(codec: Codec, f: File, op: SignedOp, fate: Fate)
    requires codec.RoundTrips() && Inv(codec, f) && Enabled(codec, f, Write(op, fate))
    ensures var f' := Next(codec, f, Write(op, fate));
            && Inv(codec, f') && f'.open && f'.safe == f.safe && f.bytes <= f'.bytes
            && (if Succeeds(f, fate) then !f'.poisoned && Stored(codec, f') == Stored(codec, f) + [op]
                else Stored(codec, f') == Stored(codec, f) || (f'.poisoned && Stored(codec, f') == Stored(codec, f) + [op]))
            && (!Succeeds(f, fate) && !f'.poisoned ==> f' == f)
  {
    if !f.poisoned {
      var frame := Frame(codec, op);
      WroteShape(f, frame, fate);
      PartIsTidy(codec, f.bytes, op, Arrived(frame, fate));
      assert Arrived(frame, fate) == |frame| ==> frame[..Arrived(frame, fate)] == frame;
      hide Parse;
      hide Tidy;
      hide Clean;
      hide Frame;
      hide WrittenAt;
    }
  }

  lemma KeptIsStored(codec: Codec, f: File)
    requires codec.RoundTrips() && Inv(codec, f)
    ensures f.safe <= |f.bytes| && Kept(codec, f) == Parse(codec, f.bytes[..f.safe]).ops && Kept(codec, f) <= Stored(codec, f)
  {
    PrefixReads(codec, f.bytes, f.safe, |f.bytes|);
    assert f.bytes[..|f.bytes|] == f.bytes;
  }

  lemma SyncKeepsInv(codec: Codec, f: File, works: bool)
    requires codec.RoundTrips() && Inv(codec, f)
    ensures var f' := f.(safe := if works then |f.bytes| else f.safe);
            Inv(codec, f') && Kept(codec, f) <= Kept(codec, f') && (works ==> Kept(codec, f') == Stored(codec, f))
  {
    KeptIsStored(codec, f);
    assert f.bytes[..|f.bytes|] == f.bytes;
  }

  lemma CrashKeepsInv(codec: Codec, f: File, n: nat)
    requires codec.RoundTrips() && Inv(codec, f) && Enabled(codec, f, Crash(n))
    ensures var f' := Next(codec, f, Crash(n));
            Inv(codec, f') && !f'.open && Kept(codec, f') == Kept(codec, f) <= Stored(codec, f') <= Stored(codec, f)
  {
    hide Parse;
    hide Tidy;
    hide Clean;
    PrefixReads(codec, f.bytes, f.safe, n);
    PrefixReads(codec, f.bytes, n, |f.bytes|);
    assert f.bytes[..|f.bytes|] == f.bytes && f.bytes[..n][..f.safe] == f.bytes[..f.safe];
  }

  lemma {:induction false} ReadsFrames(codec: Codec, ops: seq<SignedOp>, tail: Bytes, k: nat)
    requires codec.RoundTrips() && FirstFrame(codec, tail).None? && forall op | op in ops :: FitsFrame(codec, op)
    ensures var m := MinNat(k, |ops|);
            ReadUpTo(codec, Frames(codec, ops) + tail, k) == Parsed(ops[..m], |Frames(codec, ops[..m])|)
  {
    hide FirstFrame;
    hide FitsFrame;
    hide Frames;
    hide Frame;
    NoFrames(codec, ops);
    if k > 0 && ops == [] {
      assert Frames(codec, ops) + tail == tail;
    } else if k > 0 {
      FrameFirst(codec, ops, tail);
      ReadsFrames(codec, ops[1..], tail, k - 1);
      var m := MinNat(k, |ops|);
      assert ops[..m] == [ops[0]] + ops[1..][..m - 1];
      FramesOfFirst(codec, ops, m);
    }
  }

  lemma NoFrames(codec: Codec, ops: seq<SignedOp>)
    ensures Frames(codec, ops[..0]) == [] && (ops == [] ==> Frames(codec, ops) == [])
  {
  }

  lemma FramesOfFirst(codec: Codec, ops: seq<SignedOp>, m: nat)
    requires 0 < m <= |ops|
    ensures |Frames(codec, ops[..m])| == |Frame(codec, ops[0])| + |Frames(codec, ops[1..][..m - 1])|
  {
    hide Frame;
    FramesCons(codec, ops[..m]);
    assert ops[..m][1..] == ops[1..][..m - 1];
  }

  /** The first frames of a file are a file. */
  lemma PartHolds(codec: Codec, bytes: Bytes, stored: seq<SignedOp>, torn: Bytes, m: nat)
    requires Holds(codec, bytes, stored, torn) && m <= |stored|
    ensures var head := Frames(codec, stored[..m]);
            && |head| <= |bytes| && bytes[..|head|] == head && Holds(codec, head, stored[..m], [])
            && (m < |stored| ==> |head| < |bytes|)
  {
    hide Frame;
    hide FitsFrame;
    NothingTorn(codec);
    hide Torn;
    assert stored == stored[..m] + stored[m..];
    FramesConcat(codec, stored[..m], stored[m..]);
    if m < |stored| {
      FramesAreLong(codec, stored[m..]);
    }
    hide Frames;
    var head := Frames(codec, stored[..m]);
    assert head == head + [];
  }

  /** Cut where reading ends, the file is whole frames: those that were read. */
  lemma CutIsClean(codec: Codec, bytes: Bytes, t: Trouble)
    requires codec.RoundTrips() && Tidy(codec, bytes)
    ensures var ops, p := Parse(codec, bytes).ops, ReadWith(codec, bytes, t);
            && p.ops == ops[..Readable(t, |ops|)] == Parse(codec, bytes[..p.end]).ops
            && Clean(codec, bytes[..p.end])
            && (|p.ops| == |ops| ==> p == Parse(codec, bytes))
            && (|p.ops| < |ops| ==> p.end < |bytes|)
  {
    hide Parse;
    hide ReadUpTo;
    hide FirstFrame;
    hide Frames;
    var stored, torn :| Holds(codec, bytes, stored, torn);
    HoldsReads(codec, bytes, stored, torn);
    if !t.Smooth? {
      HoldsReadsUpTo(codec, bytes, stored, torn, t.k);
    }
    var m := Readable(t, |stored|);
    PartHolds(codec, bytes, stored, torn, m);
    hide Holds;
    assert stored[..|stored|] == stored;
    HoldsReads(codec, Frames(codec, stored[..m]), stored[..m], []);
  }

  lemma HoldsReadsUpTo(codec: Codec, bytes: Bytes, stored: seq<SignedOp>, torn: Bytes, k: nat)
    requires codec.RoundTrips() && Holds(codec, bytes, stored, torn)
    ensures var m := if |stored| < k then |stored| else k;
            ReadUpTo(codec, bytes, k) == Parsed(stored[..m], |Frames(codec, stored[..m])|)
  {
    hide Parse;
    hide ReadUpTo;
    TornIsNoFrame(codec, torn);
    hide FirstFrame;
    ReadsFrames(codec, stored, torn, k);
  }

  lemma FramesAreLong(codec: Codec, ops: seq<SignedOp>)
    requires ops != []
    ensures |Frames(codec, ops)| >= 4
  {
  }

  /** What cutting leaves: a clean file that reads as the frames that were read, with
      everything that was kept if and only if that many frames were. */
  lemma CutKeeps(codec: Codec, f: File, t: Trouble)
    requires codec.RoundTrips() && Inv(codec, f)
    ensures var f', ops := Cut(codec, f, t), Stored(codec, f);
            && Clean(codec, f'.bytes) && f'.safe <= |f'.bytes|
            && Stored(codec, f') == ops[..Readable(t, |ops|)]
            && (Kept(codec, f) <= Kept(codec, f') <==> |Kept(codec, f)| <= Readable(t, |ops|))
            && (|Kept(codec, f)| > Readable(t, |ops|) ==> Kept(codec, f') == Kept(codec, f)[..Readable(t, |ops|)])
            && (|f'.bytes| == |f.bytes| ==> f' == f)
            && (Readable(t, |ops|) < |ops| ==> |f'.bytes| < |f.bytes|)
  {
    hide Parse;
    hide ReadWith;
    hide Clean;
    hide Tidy;
    KeptIsStored(codec, f);
    CutIsClean(codec, f.bytes, t);
    var end := ReadWith(codec, f.bytes, t).end;
    if f.safe <= end {
      PrefixReads(codec, f.bytes, f.safe, end);
      assert f.bytes[..end][..f.safe] == f.bytes[..f.safe];
    } else {
      assert f.bytes[..end][..end] == f.bytes[..end];
    }
    assert f.bytes[..|f.bytes|] == f.bytes;
  }

  /** A replay loses what had been synced. */
  ghost predicate Loses(codec: Codec, f: File, step: Step) {
    && (step.Recover? || step.Reread?) && !ReplayFails(codec, f.bytes, step.t, step.cuts)
    && step.t.BadBody? && step.t.k < |Kept(codec, f)|
  }

  /** A replay beside the writer takes whole frames from under it. */
  ghost predicate Undermines(codec: Codec, f: File, step: Step) {
    && step.Reread? && !f.poisoned && !ReplayFails(codec, f.bytes, step.t, step.cuts)
    && step.t.BadBody? && step.t.k < |Stored(codec, f)|
  }

  /** A length that is read well enough not to fail is past the last frame. */
  lemma NotFailing(codec: Codec, f: File, t: Trouble, cuts: bool)
    requires !ReplayFails(codec, f.bytes, t, cuts) && !t.BadBody?
    ensures Readable(t, |Stored(codec, f)|) == |Stored(codec, f)|
  {
  }

  /** A restart keeps the file sound, and everything that was synced if and only if no
      synced frame's body is one it cannot read. */
  lemma RecoverExactly(codec: Codec, f: File, t: Trouble, cuts: bool)
    requires codec.RoundTrips() && Inv(codec, f) && !f.open
    ensures var f' := Recovered(codec, f, t, cuts);
            && Inv(codec, f')
            && (Kept(codec, f) <= Kept(codec, f') <==> !Loses(codec, f, Recover(t, cuts)))
            && Stored(codec, f') == (if f'.open then Stored(codec, f)[..Readable(t, |Stored(codec, f)|)] else Stored(codec, f))
            && (f'.open ==> !f'.poisoned)
  {
    hide Parse;
    hide ReadWith;
    KeptIsStored(codec, f);
    if !ReplayFails(codec, f.bytes, t, cuts) {
      CutKeeps(codec, f, t);
      CleanIsTidy(codec, Cut(codec, f, t).bytes);
      if !t.BadBody? {
        NotFailing(codec, f, t, cuts);
      }
      hide Cut;
      hide Clean;
      hide Tidy;
      assert Recovered(codec, f, t, cuts).bytes == Cut(codec, f, t).bytes;
      assert Kept(codec, Recovered(codec, f, t, cuts)) == Kept(codec, Cut(codec, f, t));
    }
  }

  /** A replay beside the writer leaves it at the end of whole frames if and only if it takes
      none of them away. */
  lemma RereadExactly(codec: Codec, f: File, t: Trouble, cuts: bool)
    requires codec.RoundTrips() && Inv(codec, f) && f.open
    ensures var f' := Next(codec, f, Reread(t, cuts));
            && (Inv(codec, f') <==> !Undermines(codec, f, Reread(t, cuts)))
            && (Kept(codec, f) <= Kept(codec, f') <==> !Loses(codec, f, Reread(t, cuts)))
  {
    hide Parse;
    hide ReadWith;
    KeptIsStored(codec, f);
    if ReplayFails(codec, f.bytes, t, cuts) {
      assert Kept(codec, f.(open := false)) == Kept(codec, f);
    } else {
      CutKeeps(codec, f, t);
      CleanIsTidy(codec, Cut(codec, f, t).bytes);
      if !t.BadBody? {
        NotFailing(codec, f, t, cuts);
      }
      if !f.poisoned && Readable(t, |Stored(codec, f)|) == |Stored(codec, f)| {
        NothingCut(codec, f, t);
      }
      hide Clean;
      hide Tidy;
    }
  }

  /** Cutting a clean file after all of its frames leaves it as it is. */
  lemma NothingCut(codec: Codec, f: File, t: Trouble)
    requires codec.RoundTrips() && Clean(codec, f.bytes) && Readable(t, |Stored(codec, f)|) == |Stored(codec, f)|
    ensures Cut(codec, f, t).bytes == f.bytes
  {
    CleanIsTidy(codec, f.bytes);
    CutIsClean(codec, f.bytes, t);
    var stored :| Holds(codec, f.bytes, stored, []);
    HoldsReads(codec, f.bytes, stored, []);
    var ops := Stored(codec, f);
    assert ops[..|ops|] == ops;
    assert f.bytes[..|f.bytes|] == f.bytes;
  }

  /** What is written past such a cut is behind zeroes: it is acknowledged, and no replay
      reads it. */
  lemma WriteIsBuried(codec: Codec, f: File, op: SignedOp, fate: Fate)
    requires codec.RoundTrips() && codec.decode([]).None? && Clean(codec, f.bytes) && f.pos >= |f.bytes| + 4
    requires Succeeds(f, fate)
    ensures Stored(codec, Wrote(f, Frame(codec, op), fate)) == Stored(codec, f)
  {
    hide WrittenAt;
    hide Torn;
    hide Frame;
    hide Parse;
    var stored :| Holds(codec, f.bytes, stored, []);
    HoldsReads(codec, f.bytes, stored, []);
    assert f.bytes == Frames(codec, stored);
    var frame := Frame(codec, op);
    assert frame[..|frame|] == frame;
    var tail := WrittenPast(f.bytes, f.pos, frame);
    ZeroesAreNoFrame(codec, tail);
    ParseStops(codec, stored, tail);
  }

  lemma WrittenPast(bytes: Bytes, pos: nat, data: Bytes) returns (tail: Bytes)
    requires pos >= |bytes| + 4
    ensures WrittenAt(bytes, pos, data) == bytes + tail && |tail| >= 4 && tail[..4] == [0, 0, 0, 0]
  {
    tail := seq(pos - |bytes|, i => 0 as Byte) + data;
  }

  lemma ZeroesAreNoFrame(codec: Codec, tail: Bytes)
    requires codec.decode([]).None? && |tail| >= 4 && tail[..4] == [0, 0, 0, 0]
    ensures FirstFrame(codec, tail).None?
  {
    assert FromLittleEndian(tail[..4]) == 0;
    assert tail[4..4] == [];
  }

  lemma StepExactly(codec: Codec, f: File, step: Step)
    requires codec.RoundTrips() && Inv(codec, f) && Enabled(codec, f, step)
    ensures var f' := Next(codec, f, step);
            && (Inv(codec, f') <==> !Undermines(codec, f, step))
            && (Kept(codec, f) <= Kept(codec, f') <==> !Loses(codec, f, step))
  {
    hide Parse;
    hide Recovered;
    match step
    case Write(op, fate) =>
      WriteKeepsInv(codec, f, op, fate);
      assert Next(codec, f, step).bytes[..f.safe] == f.bytes[..f.safe];
    case Sync(works) => SyncKeepsInv(codec, f, works);
    case Crash(n) => CrashKeepsInv(codec, f, n);
    case Recover(t, cuts) => RecoverExactly(codec, f, t, cuts);
    case Reread(t, cuts) => RereadExactly(codec, f, t, cuts);
  }

  /** From a file that is not there yet, `steps[i]` leads from `files[i]` to the next. */
  ghost predicate IsHistory(codec: Codec, files: seq<File>, steps: seq<Step>) {
    && |files| == |steps| + 1 && files[0] == File([], 0, 0, false, true)
    && forall i | 0 <= i < |steps| :: Enabled(codec, files[i], steps[i]) && files[i + 1] == Next(codec, files[i], steps[i])
  }

  lemma EmptyIsClean(codec: Codec)
    ensures Inv(codec, File([], 0, 0, false, true))
  {
    assert Holds(codec, [], [], []);
  }

  lemma InvIsTidy(codec: Codec, f: File)
    requires Inv(codec, f)
    ensures Tidy(codec, f.bytes) && f.safe <= |f.bytes|
  {
  }

  /** No replay beside the writer takes frames away in the first `n` steps. */
  ghost predicate Undisturbed(codec: Codec, files: seq<File>, steps: seq<Step>, n: nat)
    requires n <= |files| && n <= |steps|
  {
    forall i | 0 <= i < n :: !Undermines(codec, files[i], steps[i])
  }

  /** Through any number of appends, failed ones, syncs, crashes, restarts and replays that
      meet any trouble, no complete frame ever follows a torn one, as long as no replay
      beside the writer takes frames away. */
  lemma {:induction false} EveryFileIsTidy(codec: Codec, files: seq<File>, steps: seq<Step>, n: nat)
    requires codec.RoundTrips() && IsHistory(codec, files, steps) && n < |files| && Undisturbed(codec, files, steps, n)
    ensures Inv(codec, files[n]) && Tidy(codec, files[n].bytes)
  {
    hide Tidy;
    hide Inv;
    hide Undermines;
    if n == 0 {
      EmptyIsClean(codec);
    } else {
      EveryFileIsTidy(codec, files, steps, n - 1);
      StepExactly(codec, files[n - 1], steps[n - 1]);
      assert files[n - 1 + 1] == Next(codec, files[n - 1], steps[n - 1]);
    }
    InvIsTidy(codec, files[n]);
  }

  /** That is the exact condition for every writer to stand at the end of whole frames. */
  lemma TidyExactly(codec: Codec, files: seq<File>, steps: seq<Step>)
    requires codec.RoundTrips() && IsHistory(codec, files, steps)
    ensures (forall i | 0 <= i < |files| :: Inv(codec, files[i])) <==> Undisturbed(codec, files, steps, |steps|)
  {
    hide Inv;
    hide Undermines;
    if Undisturbed(codec, files, steps, |steps|) {
      forall i | 0 <= i < |files|
        ensures Inv(codec, files[i])
      {
        EveryFileIsTidy(codec, files, steps, i);
      }
    } else {
      var i :| 0 <= i < |steps| && Undermines(codec, files[i], steps[i]);
      if Inv(codec, files[i]) {
        StepExactly(codec, files[i], steps[i]);
        assert files[i + 1] == Next(codec, files[i], steps[i]);
      }
    }
  }

  ghost predicate KeptThroughout(codec: Codec, files: seq<File>) {
    forall i, j | 0 <= i <= j < |files| :: Kept(codec, files[i]) <= Kept(codec, files[j])
  }

  lemma {:induction false} KeptSoFar(codec: Codec, files: seq<File>, steps: seq<Step>, i: nat, j: nat)
    requires codec.RoundTrips() && IsHistory(codec, files, steps) && i <= j < |files| && Undisturbed(codec, files, steps, |steps|)
    requires forall m | i <= m < j :: !Loses(codec, files[m], steps[m])
    ensures Kept(codec, files[i]) <= Kept(codec, files[j])
    decreases j
  {
    hide Inv;
    hide Undermines;
    hide Loses;
    hide Kept;
    if i < j {
      KeptSoFar(codec, files, steps, i, j - 1);
      EveryFileIsTidy(codec, files, steps, j - 1);
      StepExactly(codec, files[j - 1], steps[j - 1]);
      assert files[j - 1 + 1] == Next(codec, files[j - 1], steps[j - 1]);
    }
  }

  /** What a sync has put on the disk is read back, in its order, by every later replay, if
      and only if no replay was unable to read the body of a synced frame. */
  lemma SyncedIsKeptExactly(codec: Codec, files: seq<File>, steps: seq<Step>)
    requires codec.RoundTrips() && IsHistory(codec, files, steps) && Undisturbed(codec, files, steps, |steps|)
    ensures KeptThroughout(codec, files) <==> forall i | 0 <= i < |steps| :: !Loses(codec, files[i], steps[i])
  {
    hide Inv;
    hide Undermines;
    hide Loses;
    hide Kept;
    if forall i | 0 <= i < |steps| :: !Loses(codec, files[i], steps[i]) {
      forall i, j | 0 <= i <= j < |files|
        ensures Kept(codec, files[i]) <= Kept(codec, files[j])
      {
        KeptSoFar(codec, files, steps, i, j);
      }
    } else {
      var i :| 0 <= i < |steps| && Loses(codec, files[i], steps[i]);
      EveryFileIsTidy(codec, files, steps, i);
      StepExactly(codec, files[i], steps[i]);
      assert files[i + 1] == Next(codec, files[i], steps[i]);
    }
  }

  lemma OneMoreStep(codec: Codec, files: seq<File>, steps: seq<Step>, step: Step)
    requires IsHistory(codec, files, steps) && Enabled(codec, files[|steps|], step)
    ensures IsHistory(codec, files + [Next(codec, files[|steps|], step)], steps + [step])
  {
    hide Enabled;
    hide Next;
    var files', steps' := files + [Next(codec, files[|steps|], step)], steps + [step];
    forall i | 0 <= i < |steps'|
      ensures Enabled(codec, files'[i], steps'[i]) && files'[i + 1] == Next(codec, files'[i], steps'[i])
    {
      assert i < |steps| ==> steps'[i] == steps[i] && files'[i] == files[i] && files'[i + 1] == files[i + 1];
    }
  }

  /** Two ops written and synced. */
  lemma TwoSynced(codec: Codec, x: SignedOp, y: SignedOp) returns (files: seq<File>, steps: seq<Step>)
    requires codec.RoundTrips() && FitsFrame(codec, x) && FitsFrame(codec, y)
    ensures IsHistory(codec, files, steps) && |files| == 4 && |steps| == 3 && forall i | 0 <= i < 3 :: !steps[i].Reread?
    ensures Inv(codec, files[3]) && files[3].safe == |files[3].bytes| && Kept(codec, files[3]) == [x, y] == Stored(codec, files[3])
  {
    hide Parse;
    hide Wrote;
    hide IsHistory;
    var good := Fate(true, true, 0, true, true);
    files, steps := [File([], 0, 0, false, true)], [];
    EmptyIsClean(codec);
    NothingToRead(codec);
    assert IsHistory(codec, files, steps) by { StartIsHistory(codec); }
    WriteKeepsInv(codec, files[0], x, good);
    OneMoreStep(codec, files, steps, Write(x, good));
    files, steps := files + [Next(codec, files[0], Write(x, good))], steps + [Write(x, good)];
    WriteKeepsInv(codec, files[1], y, good);
    OneMoreStep(codec, files, steps, Write(y, good));
    files, steps := files + [Next(codec, files[1], Write(y, good))], steps + [Write(y, good)];
    hide Inv;
    hide Stored;
    hide Kept;
    SyncKeepsInv(codec, files[2], true);
    OneMoreStep(codec, files, steps, Sync(true));
    SyncReadsSame(codec, files[2]);
    files, steps := files + [Next(codec, files[2], Sync(true))], steps + [Sync(true)];
  }

  lemma StartIsHistory(codec: Codec)
    ensures IsHistory(codec, [File([], 0, 0, false, true)], [])
  {
  }

  lemma SyncReadsSame(codec: Codec, f: File)
    ensures Stored(codec, f.(safe := |f.bytes|)) == Stored(codec, f)
  {
  }

  /** Then a crash that loses nothing, and a restart that cannot read the body of the first:
      both are gone from the file. */
  lemma BadBodyLosesSynced(codec: Codec, x: SignedOp, y: SignedOp) returns (files: seq<File>, steps: seq<Step>)
    requires codec.RoundTrips() && FitsFrame(codec, x) && FitsFrame(codec, y)
    ensures IsHistory(codec, files, steps) && |files| == 6 && |steps| == 5 && Undisturbed(codec, files, steps, 5)
    ensures Kept(codec, files[3]) == [x, y] && Stored(codec, files[5]) == []
  {
    hide Parse;
    hide IsHistory;
    hide Kept;
    hide Stored;
    hide Inv;
    hide ReplayFails;
    files, steps := TwoSynced(codec, x, y);
    var f := files[3];
    CrashKeepsInv(codec, f, |f.bytes|);
    OneMoreStep(codec, files, steps, Crash(|f.bytes|));
    files, steps := files + [Next(codec, f, Crash(|f.bytes|))], steps + [Crash(|f.bytes|)];
    var trouble := BadBody(0);
    RecoverExactly(codec, files[4], trouble, true);
    OneMoreStep(codec, files, steps, Recover(trouble, true));
    BodyNeverFails(codec, files[4].bytes, 0);
    files, steps := files + [Next(codec, files[4], Recover(trouble, true))], steps + [Recover(trouble, true)];
  }

  lemma NothingToRead(codec: Codec)
    ensures Parse(codec, []).ops == []
  {
  }

  lemma BodyNeverFails(codec: Codec, bytes: Bytes, k: nat)
    ensures !ReplayFails(codec, bytes, BadBody(k), true)
  {
  }

  // -------------------------------------------------------------------- replay

  /** A log after appending those of `ops` that verify. */
  function Restored(log: Log, ops: seq<SignedOp>, verifies: SignedOp -> bool): Log {
    if ops == [] then log
    else
      var before, op := Restored(log, ops[..|ops| - 1], verifies), ops[|ops| - 1];
      if verifies(op) then Appended(before, op) else before
  }

  /** Replaying adds exactly the ids of the ops that verify, and keeps what the log held in
      its place. */
  lemma {:induction false} RestoredHolds(log: Log, ops: seq<SignedOp>, verifies: SignedOp -> bool)
    requires log.Valid()
    ensures Restored(log, ops, verifies).Valid() && Extends(Restored(log, ops, verifies), log)
    ensures forall id :: id in Ids(Restored(log, ops, verifies).arrivals) <==>
              id in Ids(log.arrivals) || exists i :: 0 <= i < |ops| && ops[i].id == id && verifies(ops[i])
    ensures forall op | op in Restored(log, ops, verifies).arrivals && op !in log.arrivals :: op in ops && verifies(op)
    decreases |ops|
  {
    if ops != [] {
      var rest, op := ops[..|ops| - 1], ops[|ops| - 1];
      RestoredHolds(log, rest, verifies);
      var before := Restored(log, rest, verifies);
      var after := Restored(log, ops, verifies);
      if verifies(op) {
        AppendedKeepsValid(before, op);
      }
      forall id
        ensures id in Ids(after.arrivals) <==>
                  id in Ids(log.arrivals) || exists i :: 0 <= i < |ops| && ops[i].id == id && verifies(ops[i])
      {
        assert forall i | 0 <= i < |rest| :: ops[i] == rest[i];
        assert id in Ids(after.arrivals) <==> id in Ids(before.arrivals) || (verifies(op) && id == op.id);
      }
    }
  }

  /** Ops that all verify arrive in the order of the file. */
  lemma {:induction false} RestoredInOrder(log: Log, ops: seq<SignedOp>, verifies: SignedOp -> bool)
    requires DistinctIds(log.arrivals + ops) && forall op | op in ops :: verifies(op)
    ensures Restored(log, ops, verifies).arrivals == log.arrivals + ops
    decreases |ops|
  {
    if ops == [] {
      assert log.arrivals + ops == log.arrivals;
    } else {
      var rest, op, all := ops[..|ops| - 1], ops[|ops| - 1], log.arrivals + ops;
      assert forall i | 0 <= i < |log.arrivals + rest| :: (log.arrivals + rest)[i] == all[i];
      RestoredInOrder(log, rest, verifies);
      assert all[|all| - 1] == op;
      assert all == log.arrivals + rest + [op];
    }
  }

  /** `replay_oplog_file`: the log gains the verified ops of the frames read, and unless the
      replay fails the file ends after the last of them. */
  method ReplayOplogFile(disk: Disk, codec: Codec, verifies: SignedOp -> bool, log: OpLog, t: Trouble, cuts: bool)
    returns (appended: nat, failed: bool)
    requires log.Valid()
    modifies disk, log
    ensures log.Valid() && log.View() == Restored(old(log.View()), ReadWith(codec, old(disk.bytes), t).ops, verifies)
    ensures failed <==> ReplayFails(codec, old(disk.bytes), t, cuts)
    ensures var f := File(old(disk.bytes), old(disk.safe), 0, false, false);
            if failed then disk.bytes == f.bytes && disk.safe == f.safe
            else f.safe <= |f.bytes| ==> disk.bytes == Cut(codec, f, t).bytes && disk.safe == Cut(codec, f, t).safe
    ensures |log.View().arrivals| == |old(log.View().arrivals)| + appended
  {
    var end;
    end, appended, failed := ReadFrames(disk.bytes, codec, verifies, log, t);
    if !failed && end < |disk.bytes| {
      if !cuts {
        return appended, true;
      }
      disk.bytes := disk.bytes[..end];
      disk.safe := MinNat(disk.safe, end);
    }
  }

  /** Reading has got to `end` and found `ops`. */
  ghost predicate ReadSoFar(codec: Codec, bytes: Bytes, end: nat, ops: seq<SignedOp>) {
    ReadUpTo(codec, bytes, |ops|) == Parsed(ops, end)
  }

  lemma ReadNothing(codec: Codec, bytes: Bytes)
    ensures ReadSoFar(codec, bytes, 0, [])
  {
  }

  lemma {:induction false} ReadOne(codec: Codec, bytes: Bytes, end: nat, ops: seq<SignedOp>, op: SignedOp, n: nat)
    requires ReadSoFar(codec, bytes, end, ops) && end <= |bytes| && FirstFrame(codec, bytes[end..]) == Some((op, n))
    ensures n >= 4 && end + n <= |bytes| && ReadSoFar(codec, bytes, end + n, ops + [op])
    decreases |ops|
  {
    if ops == [] {
      assert bytes[0..] == bytes;
    } else {
      var (first, m) := FirstFrame(codec, bytes).value;
      var rest := ops[1..];
      assert ops == [first] + rest;
      assert bytes[m..][end - m..] == bytes[end..];
      ReadOne(codec, bytes[m..], end - m, rest, op, n);
      assert ops + [op] == [first] + (rest + [op]);
      hide FirstFrame;
    }
  }

  /** Where no frame starts, reading is over, however much more was allowed. */
  lemma {:induction false} ReadAll(codec: Codec, bytes: Bytes, end: nat, ops: seq<SignedOp>, k: nat)
    requires ReadSoFar(codec, bytes, end, ops) && end <= |bytes| && FirstFrame(codec, bytes[end..]).None?
    ensures Parse(codec, bytes) == Parsed(ops, end) && (|ops| <= k ==> ReadUpTo(codec, bytes, k) == Parsed(ops, end))
    decreases |ops|
  {
    if ops == [] {
      assert bytes[0..] == bytes;
    } else {
      var (first, m) := FirstFrame(codec, bytes).value;
      var rest := ops[1..];
      assert ops == [first] + rest;
      assert bytes[m..][end - m..] == bytes[end..];
      ReadAll(codec, bytes[m..], end - m, rest, if k > 0 then k - 1 else 0);
      hide FirstFrame;
    }
  }

  /** A reading that was stopped by trouble at frame `k` has read `k` frames of the file. */
  lemma {:induction false} ReadIsPrefix(codec: Codec, bytes: Bytes, k: nat)
    ensures ReadUpTo(codec, bytes, k).ops <= Parse(codec, bytes).ops
    decreases k
  {
    if k > 0 {
      match FirstFrame(codec, bytes)
      case None =>
      case Some((op, n)) =>
        ReadIsPrefix(codec, bytes[n..], k - 1);
    }
  }

  /** One frame from the reader: `None` at a torn or undecodable one, and at one whose
      length or body cannot be read. Only the former of these two is an error. */
  method ReadFrame(bytes: Bytes, end: nat, codec: Codec, k: nat, t: Trouble) returns (r: Option<(SignedOp, nat)>, failed: bool)
    requires end <= |bytes|
    ensures failed <==> t == BadLength(k)
    ensures r == if t == BadLength(k) || t == BadBody(k) then None else FirstFrame(codec, bytes[end..])
  {
    hide FromLittleEndian;
    if t == BadLength(k) {
      return None, true;
    }
    if |bytes| - end < 4 {
      return None, false;
    }
    var len := FromLittleEndian(bytes[end..end + 4]);
    assert bytes[end..][..4] == bytes[end..end + 4];
    if t == BadBody(k) || |bytes| - end - 4 < len {
      return None, false;
    }
    var frame := bytes[end + 4..end + 4 + len];
    assert bytes[end..][4..4 + len] == frame;
    var op := codec.decode(frame);
    r, failed := if op.None? then None else Some((op.value, 4 + len)), false;
  }

  /** The read loop. */
  method ReadFrames(bytes: Bytes, codec: Codec, verifies: SignedOp -> bool, log: OpLog, t: Trouble)
    returns (end: nat, appended: nat, failed: bool)
    requires log.Valid()
    modifies log
    ensures log.Valid() && end == ReadWith(codec, bytes, t).end
    ensures log.View() == Restored(old(log.View()), ReadWith(codec, bytes, t).ops, verifies)
    ensures failed <==> t.BadLength? && t.k <= |Parse(codec, bytes).ops|
    ensures |log.View().arrivals| == |old(log.View().arrivals)| + appended
  {
    hide Appended;
    hide Ascending;
    hide DistinctIds;
    hide Ids;
    hide ReadSoFar;
    hide FirstFrame;
    hide Parse;
    hide ReadUpTo;
    end, appended := 0, 0;
    var k: nat := 0;
    ghost var ops: seq<SignedOp> := [];
    ReadNothing(codec, bytes);
    var next;
    next, failed := ReadFrame(bytes, end, codec, k, t);
    while next.Some?
      invariant log.Valid() && end <= |bytes| && k == |ops| && (!t.Smooth? ==> k <= t.k)
      invariant failed <==> t == BadLength(k)
      invariant next == if t == BadLength(k) || t == BadBody(k) then None else FirstFrame(codec, bytes[end..])
      invariant ReadSoFar(codec, bytes, end, ops)
      invariant log.View() == Restored(old(log.View()), ops, verifies)
      invariant |log.View().arrivals| == |old(log.View().arrivals)| + appended
      decreases |bytes| - end
    {
      var (op, n) := next.value;
      ReadOne(codec, bytes, end, ops, op, n);
      end, k := end + n, k + 1;
      assert (ops + [op])[..|ops|] == ops;
      ops := ops + [op];
      if verifies(op) {
        ghost var before := log.View();
        var isNew := log.Append(op);
        AppendedGrows(before, op);
        if isNew {
          appended := appended + 1;
        }
      }
      next, failed := ReadFrame(bytes, end, codec, k, t);
    }
    ReadEnds(codec, bytes, end, ops, t);
  }

  lemma ReadEnds(codec: Codec, bytes: Bytes, end: nat, ops: seq<SignedOp>, t: Trouble)
    requires ReadSoFar(codec, bytes, end, ops) && end <= |bytes| && (!t.Smooth? ==> |ops| <= t.k)
    requires (!t.Smooth? && t.k == |ops|) || FirstFrame(codec, bytes[end..]).None?
    ensures ReadWith(codec, bytes, t) == Parsed(ops, end)
    ensures t == BadLength(|ops|) <==> t.BadLength? && t.k <= |Parse(codec, bytes).ops|
  {
    hide Parse;
    hide ReadUpTo;
    if !t.Smooth? && t.k == |ops| {
      ReadIsPrefix(codec, bytes, t.k);
    } else {
      ReadAll(codec, bytes, end, ops, if t.Smooth? then 0 else t.k);
    }
  }
}
