/** Checked frames on a serial byte stream, and the byte-at-a-time collector that finds them. */
module SerialFrame {
  import opened Wrappers

  /** A frame format: first byte, last byte, and length; the byte before the last is the XOR of all before it. */
  datatype Format = Format(header: bv8, tail: bv8, size: nat)

  ghost predicate ValidFormat(fmt: Format) {
    fmt.size >= 3
  }

  function Xor(s: seq<bv8>): bv8 {
    if s == [] then 0 else Xor(s[..|s| - 1]) ^ s[|s| - 1]
  }

  /** What the receiver checks once a buffer is full. */
  predicate Accepted(fmt: Format, rx: seq<bv8>)
    requires fmt.size >= 3 && |rx| == fmt.size
  {
    rx[fmt.size - 1] == fmt.tail && Xor(rx[..fmt.size - 2]) == rx[fmt.size - 2]
  }

  ghost predicate WellFormed(fmt: Format, frame: seq<bv8>) {
    ValidFormat(fmt) && |frame| == fmt.size && frame[0] == fmt.header && Accepted(fmt, frame)
  }

  /** A full-length frame that starts with the header but fails the tail or the check. */
  ghost predicate Damaged(fmt: Format, frame: seq<bv8>) {
    ValidFormat(fmt) && |frame| == fmt.size && frame[0] == fmt.header && !Accepted(fmt, frame)
  }

  // ---------- the collector ----------

  /** The static counter and its buffer. */
  datatype Collector = Collector(count: nat, rx: seq<bv8>)

  ghost predicate Ready(fmt: Format, c: Collector) {
    ValidFormat(fmt) && |c.rx| == fmt.size && c.count < fmt.size
  }

  /** The counter after a byte, before the full-buffer test. */
  function Counted(fmt: Format, c: Collector, b: bv8): nat {
    if b == fmt.header || c.count > 0 then c.count + 1 else 0
  }

  /** One byte: the buffer is written in bounds, and the counter returns below the size. */
  function Push(fmt: Format, c: Collector, b: bv8): (c': Collector)
    requires fmt.size >= 3 && |c.rx| == fmt.size && c.count < fmt.size
    ensures |c'.rx| == fmt.size && c'.count < fmt.size
  {
    var n := Counted(fmt, c, b);
    Collector(if n == fmt.size then 0 else n, c.rx[c.count := b])
  }

  /** The frame the receiver takes over on this byte, if any. */
  function Emit(fmt: Format, c: Collector, b: bv8): (taken: Option<seq<bv8>>)
    requires fmt.size >= 3 && |c.rx| == fmt.size && c.count < fmt.size
    ensures taken.Some? ==> |taken.value| == fmt.size
  {
    if Counted(fmt, c, b) == fmt.size && Accepted(fmt, c.rx[c.count := b]) then Some(c.rx[c.count := b]) else None
  }

  ghost function Run(fmt: Format, c: Collector, bytes: seq<bv8>): (c': Collector)
    requires Ready(fmt, c)
    ensures Ready(fmt, c')
  {
    if bytes == [] then c else Push(fmt, Run(fmt, c, bytes[..|bytes| - 1]), bytes[|bytes| - 1])
  }

  /** What is taken over on each byte of a stream. */
  ghost function Outputs(fmt: Format, c: Collector, bytes: seq<bv8>): (out: seq<Option<seq<bv8>>>)
    requires Ready(fmt, c)
    ensures |out| == |bytes|
  {
    if bytes == [] then []
    else
      var n := |bytes| - 1;
      Outputs(fmt, c, bytes[..n]) + [Emit(fmt, Run(fmt, c, bytes[..n]), bytes[n])]
  }

  lemma OneMoreByte(fmt: Format, c: Collector, bytes: seq<bv8>, b: bv8)
    requires Ready(fmt, c)
    ensures Run(fmt, c, bytes + [b]) == Push(fmt, Run(fmt, c, bytes), b)
    ensures Outputs(fmt, c, bytes + [b]) == Outputs(fmt, c, bytes) + [Emit(fmt, Run(fmt, c, bytes), b)]
  {
    assert (bytes + [b])[..|bytes|] == bytes;
  }

  /** What has been taken over so far does not depend on the bytes to come. */
  lemma OutputsPrefix(fmt: Format, c: Collector, bytes: seq<bv8>, k: nat)
    requires Ready(fmt, c) && k < |bytes|
    ensures Outputs(fmt, c, bytes[..k] + [bytes[k]])[k] == Outputs(fmt, c, bytes)[k]
  {
    assert bytes == (bytes[..k] + [bytes[k]]) + bytes[k + 1..];
    RunConcat(fmt, c, bytes[..k] + [bytes[k]], bytes[k + 1..]);
  }

  lemma {:induction false} RunConcat(fmt: Format, c: Collector, s: seq<bv8>, t: seq<bv8>)
    requires Ready(fmt, c)
    ensures Run(fmt, c, s + t) == Run(fmt, Run(fmt, c, s), t)
    ensures Outputs(fmt, c, s + t) == Outputs(fmt, c, s) + Outputs(fmt, Run(fmt, c, s), t)
  {
    hide Push, Emit;
    if t == [] {
      assert s + t == s;
    } else {
      var n := |t| - 1;
      assert (s + t)[..|s + t| - 1] == s + t[..n];
      RunConcat(fmt, c, s, t[..n]);
    }
  }

  // ---------- framing ----------

  function Silence(n: nat): seq<Option<seq<bv8>>> {
    seq(n, i => None)
  }

  /** Part of a frame, fed from counter 0: it fills the buffer from the start and emits nothing. */
  lemma {:induction false} PartialFrame(fmt: Format, c: Collector, frame: seq<bv8>, k: nat)
    requires Ready(fmt, c) && c.count == 0 && |frame| == fmt.size && frame[0] == fmt.header && 0 < k < fmt.size
    ensures Run(fmt, c, frame[..k]).count == k
    ensures Run(fmt, c, frame[..k]).rx[..k] == frame[..k]
    ensures Outputs(fmt, c, frame[..k]) == Silence(k)
  {
    hide Accepted;
    assert frame[..k][..k - 1] == frame[..k - 1];
    var before := Run(fmt, c, frame[..k - 1]);
    if k > 1 {
      PartialFrame(fmt, c, frame, k - 1);
      assert before.rx[k - 1 := frame[k - 1]][..k] == before.rx[..k - 1] + [frame[k - 1]];
    } else {
      assert frame[..0] == [];
      assert c.rx[0 := frame[0]][..1] == [frame[0]] == frame[..1];
    }
  }

  /** A whole frame, fed from counter 0: taken over on its last byte if accepted, otherwise dropped. */
  lemma WholeFrame(fmt: Format, c: Collector, frame: seq<bv8>)
    requires Ready(fmt, c) && c.count == 0 && |frame| == fmt.size && frame[0] == fmt.header
    ensures Run(fmt, c, frame).count == 0
    ensures Outputs(fmt, c, frame) ==
      Silence(fmt.size - 1) + [if Accepted(fmt, frame) then Some(frame) else None]
  {
    hide Accepted;
    var k := fmt.size - 1;
    PartialFrame(fmt, c, frame, k);
    var before := Run(fmt, c, frame[..k]);
    assert before.rx[k := frame[k]] == before.rx[..k] + [frame[k]] == frame;
  }

  /** A byte other than the header between frames is ignored. */
  lemma GapByte(fmt: Format, c: Collector, b: bv8)
    requires Ready(fmt, c) && c.count == 0 && b != fmt.header
    ensures Run(fmt, c, [b]).count == 0 && Outputs(fmt, c, [b]) == [None]
  {
    assert [b][..0] == [];
  }

  /** A piece of a stream: noise between frames, a good frame, or a damaged one. */
  datatype Item = Gap(b: bv8) | Frame(frame: seq<bv8>)

  ghost predicate ValidItem(fmt: Format, item: Item) {
    match item
    case Gap(b) => b != fmt.header
    case Frame(f) => WellFormed(fmt, f) || Damaged(fmt, f)
  }

  function ItemBytes(item: Item): seq<bv8> {
    match item
    case Gap(b) => [b]
    case Frame(f) => f
  }

  /** A good frame is one success, on its last byte and with its own bytes; anything else is silent. */
  ghost function ItemOutputs(fmt: Format, item: Item): (out: seq<Option<seq<bv8>>>)
    ensures |out| == |ItemBytes(item)|
  {
    match item
    case Gap(b) => [None]
    case Frame(f) => if f == [] then [] else Silence(|f| - 1) + [if WellFormed(fmt, f) then Some(f) else None]
  }

  function BytesOf(items: seq<Item>): seq<bv8> {
    if items == [] then [] else BytesOf(items[..|items| - 1]) + ItemBytes(items[|items| - 1])
  }

  ghost function Expected(fmt: Format, items: seq<Item>): (out: seq<Option<seq<bv8>>>)
    ensures |out| == |BytesOf(items)|
  {
    if items == [] then []
    else Expected(fmt, items[..|items| - 1]) + ItemOutputs(fmt, items[|items| - 1])
  }

  /**
   Stream framing: from counter 0, whatever the payload bytes are, a stream of frames separated by
   non-header bytes yields exactly the expected successes, and ends at counter 0.
   */
  lemma {:induction false} StreamFraming(fmt: Format, c: Collector, items: seq<Item>)
    requires Ready(fmt, c) && c.count == 0
    requires forall k :: 0 <= k < |items| ==> ValidItem(fmt, items[k])
    ensures Outputs(fmt, c, BytesOf(items)) == Expected(fmt, items)
    ensures Run(fmt, c, BytesOf(items)).count == 0
  {
    hide Accepted, Push, Emit, Silence;
    if items != [] {
      var before, last := items[..|items| - 1], items[|items| - 1];
      StreamFraming(fmt, c, before);
      var c' := Run(fmt, c, BytesOf(before));
      match last {
        case Gap(b) =>
          RunConcat(fmt, c, BytesOf(before), [b]);
          GapByte(fmt, c', b);
        case Frame(f) =>
          RunConcat(fmt, c, BytesOf(before), f);
          WholeFrame(fmt, c', f);
      }
    }
  }

  // ---------- altered frames ----------

  lemma {:induction false} XorUpdate(s: seq<bv8>, k: nat, b: bv8)
    requires k < |s| && b != s[k]
    ensures Xor(s[k := b]) != Xor(s)
  {
    var n := |s| - 1;
    var t := s[k := b];
    if k == n {
      assert t[..n] == s[..n];
      XorCancels(Xor(s[..n]), b, s[n]);
    } else {
      assert t[..n] == s[..n][k := b];
      XorUpdate(s[..n], k, b);
      XorCancelsRight(Xor(t[..n]), Xor(s[..n]), s[n]);
    }
  }

  lemma XorCancels(x: bv8, a: bv8, b: bv8)
    requires a != b
    ensures x ^ a != x ^ b
  {
  }

  lemma XorCancelsRight(x: bv8, y: bv8, a: bv8)
    requires x != y
    ensures x ^ a != y ^ a
  {
  }

  /** Altering any one byte of a good frame other than its header makes it a damaged frame. */
  lemma AlteredFrameIsDamaged(fmt: Format, frame: seq<bv8>, k: nat, b: bv8)
    requires WellFormed(fmt, frame) && 0 < k < fmt.size && b != frame[k]
    ensures Damaged(fmt, frame[k := b])
  {
    var n := fmt.size - 2;
    var f := frame[k := b];
    if k < n {
      assert f[..n] == frame[..n][k := b];
      XorUpdate(frame[..n], k, b);
    } else {
      assert f[..n] == frame[..n];
    }
  }

  /** One altered non-header byte loses exactly its own frame; every other output stays. */
  lemma AlteredByteLosesOneFrame(fmt: Format, c: Collector, items: seq<Item>, i: nat, k: nat, b: bv8)
    requires Ready(fmt, c) && c.count == 0
    requires forall j :: 0 <= j < |items| ==> ValidItem(fmt, items[j])
    requires i < |items| && items[i].Frame? && WellFormed(fmt, items[i].frame)
    requires 0 < k < fmt.size && b != items[i].frame[k]
    ensures var altered := items[i := Frame(items[i].frame[k := b])];
      var p := LastByteOf(items, i);
      && |BytesOf(altered)| == |BytesOf(items)| && 0 <= p < |BytesOf(items)|
      && Outputs(fmt, c, BytesOf(items))[p] == Some(items[i].frame)
      && Outputs(fmt, c, BytesOf(altered)) == Outputs(fmt, c, BytesOf(items))[p := None]
  {
    hide Accepted, Push, Emit, Silence;
    var altered := items[i := Frame(items[i].frame[k := b])];
    AlteredFrameIsDamaged(fmt, items[i].frame, k, b);
    StreamFraming(fmt, c, items);
    StreamFraming(fmt, c, altered);
    ExpectedAltered(fmt, items, i, k, b);
  }

  lemma ItemAltered(fmt: Format, frame: seq<bv8>, k: nat, b: bv8)
    requires WellFormed(fmt, frame) && k < fmt.size && Damaged(fmt, frame[k := b])
    ensures ItemOutputs(fmt, Frame(frame))[fmt.size - 1] == Some(frame)
    ensures ItemOutputs(fmt, Frame(frame[k := b])) == ItemOutputs(fmt, Frame(frame))[fmt.size - 1 := None]
  {
    hide Accepted;
  }

  lemma UpdateLeft<T>(s: seq<T>, t: seq<T>, p: nat, v: T)
    requires p < |s|
    ensures (s + t)[p := v] == s[p := v] + t
  {
  }

  lemma UpdateRight<T>(s: seq<T>, t: seq<T>, p: nat, v: T)
    requires p < |t|
    ensures (s + t)[|s| + p := v] == s + t[p := v]
  {
  }

  /** The stream position of the last byte of item `i`. */
  function LastByteOf(items: seq<Item>, i: nat): int
    requires i < |items|
  {
    |BytesOf(items[..i + 1])| - 1
  }

  /** Altering item `i` turns its one success into silence and moves nothing else. */
  ghost predicate LosesOnly(fmt: Format, items: seq<Item>, altered: seq<Item>, p: int, frame: seq<bv8>) {
    && |BytesOf(altered)| == |BytesOf(items)| && 0 <= p < |BytesOf(items)|
    && Expected(fmt, items)[p] == Some(frame)
    && Expected(fmt, altered) == Expected(fmt, items)[p := None]
  }

  lemma {:induction false} ExpectedAltered(fmt: Format, items: seq<Item>, i: nat, k: nat, b: bv8)
    requires i < |items| && items[i].Frame? && WellFormed(fmt, items[i].frame)
    requires 0 < k < fmt.size && k < |items[i].frame| && Damaged(fmt, items[i].frame[k := b])
    ensures LosesOnly(fmt, items, items[i := Frame(items[i].frame[k := b])], LastByteOf(items, i), items[i].frame)
    decreases |items|
  {
    hide WellFormed, Damaged, ItemOutputs, ItemBytes, LosesOnly;
    var n := |items| - 1;
    var altered := items[i := Frame(items[i].frame[k := b])];
    if i == n {
      ItemAltered(fmt, items[i].frame, k, b);
      AlteredLast(fmt, items, altered, items[i].frame, k, b);
    } else {
      assert altered[..n] == items[..n][i := Frame(items[i].frame[k := b])];
      assert items[..n][..i + 1] == items[..i + 1];
      ExpectedAltered(fmt, items[..n], i, k, b);
      AlteredEarlier(fmt, items, altered, LastByteOf(items, i), items[i].frame);
    }
  }

  lemma Unsnoc(fmt: Format, items: seq<Item>)
    requires items != []
    ensures BytesOf(items) == BytesOf(items[..|items| - 1]) + ItemBytes(items[|items| - 1])
    ensures Expected(fmt, items) == Expected(fmt, items[..|items| - 1]) + ItemOutputs(fmt, items[|items| - 1])
  {
    hide WellFormed, ItemOutputs, ItemBytes;
  }

  lemma AlteredLast(fmt: Format, items: seq<Item>, altered: seq<Item>, frame: seq<bv8>, k: nat, b: bv8)
    requires items != [] && |altered| == |items| && altered[..|items| - 1] == items[..|items| - 1]
    requires WellFormed(fmt, frame) && k < |frame|
    requires items[|items| - 1] == Frame(frame) && altered[|items| - 1] == Frame(frame[k := b])
    requires ItemOutputs(fmt, Frame(frame))[fmt.size - 1] == Some(frame)
    requires ItemOutputs(fmt, Frame(frame[k := b])) == ItemOutputs(fmt, Frame(frame))[fmt.size - 1 := None]
    ensures LosesOnly(fmt, items, altered, LastByteOf(items, |items| - 1), frame)
  {
    hide WellFormed, ItemOutputs, ItemBytes, Damaged, BytesOf, Expected, LosesOnly;
    Unsnoc(fmt, items);
    Unsnoc(fmt, altered);
    var n := |items| - 1;
    var good, bad := ItemOutputs(fmt, items[n]), ItemOutputs(fmt, altered[n]);
    FrameLength(fmt, frame);
    assert |good| == fmt.size;
    assert items[..n + 1] == items;
    UpdateRight(Expected(fmt, items[..n]), good, fmt.size - 1, None);
    LosesLast(fmt, items, altered, frame, Expected(fmt, items[..n]), good, bad);
  }

  /** Two streams whose outputs differ in the last place only. */
  lemma LosesLast(fmt: Format, items: seq<Item>, altered: seq<Item>, frame: seq<bv8>, head: seq<Option<seq<bv8>>>,
                  good: seq<Option<seq<bv8>>>, bad: seq<Option<seq<bv8>>>)
    requires items != [] && items[..|items|] == items && Expected(fmt, items) == head + good
    requires Expected(fmt, altered) == head + bad && |good| > 0
    requires good[|good| - 1] == Some(frame) && bad == good[|good| - 1 := None]
    requires (head + good)[|head| + |good| - 1 := None] == head + bad
    ensures LosesOnly(fmt, items, altered, LastByteOf(items, |items| - 1), frame)
  {
    hide BytesOf, Expected;
  }

  lemma AlteredEarlier(fmt: Format, items: seq<Item>, altered: seq<Item>, p: int, frame: seq<bv8>)
    requires items != [] && |altered| == |items| && altered[|items| - 1] == items[|items| - 1]
    requires LosesOnly(fmt, items[..|items| - 1], altered[..|items| - 1], p, frame)
    ensures LosesOnly(fmt, items, altered, p, frame)
  {
    Unsnoc(fmt, items);
    Unsnoc(fmt, altered);
    hide ItemOutputs, ItemBytes, BytesOf, Expected;
    var n := |items| - 1;
    UpdateLeft(Expected(fmt, items[..n]), ItemOutputs(fmt, items[n]), p, None);
  }

  lemma FrameLength(fmt: Format, frame: seq<bv8>)
    requires WellFormed(fmt, frame)
    ensures |ItemBytes(Frame(frame))| == fmt.size >= 3
  {
  }

  // ---------- several formats on one stream ----------

  /** Bytes on a shared stream: noise, or a frame of one of the formats. */
  datatype Piece = Noise(b: bv8) | Sent(fmt: Format, frame: seq<bv8>)

  function PieceBytes(piece: Piece): seq<bv8> {
    match piece
    case Noise(b) => [b]
    case Sent(_, frame) => frame
  }

  /** The collector of `fmt` sees a good frame of its own, or bytes that cannot start one. */
  ghost predicate Undisturbed(fmt: Format, piece: Piece) {
    if piece.Sent? && piece.fmt == fmt then WellFormed(fmt, piece.frame)
    else forall k :: 0 <= k < |PieceBytes(piece)| ==> PieceBytes(piece)[k] != fmt.header
  }

  /** One success on the last byte of a frame of this format, nothing on all other bytes. */
  ghost function PieceTaken(fmt: Format, piece: Piece): seq<Option<seq<bv8>>> {
    if piece.Sent? && piece.fmt == fmt && piece.frame != []
    then Silence(|piece.frame| - 1) + [Some(piece.frame)]
    else Silence(|PieceBytes(piece)|)
  }

  function StreamOf(pieces: seq<Piece>): seq<bv8> {
    if pieces == [] then [] else StreamOf(pieces[..|pieces| - 1]) + PieceBytes(pieces[|pieces| - 1])
  }

  ghost function TakenFrom(fmt: Format, pieces: seq<Piece>): seq<Option<seq<bv8>>> {
    if pieces == [] then [] else TakenFrom(fmt, pieces[..|pieces| - 1]) + PieceTaken(fmt, pieces[|pieces| - 1])
  }

  /** Bytes that are not the header leave a resting collector at rest. */
  lemma {:induction false} QuietBytes(fmt: Format, c: Collector, bytes: seq<bv8>)
    requires Ready(fmt, c) && c.count == 0 && forall k :: 0 <= k < |bytes| ==> bytes[k] != fmt.header
    ensures Run(fmt, c, bytes).count == 0 && Outputs(fmt, c, bytes) == Silence(|bytes|)
  {
    hide Accepted;
    if bytes != [] {
      QuietBytes(fmt, c, bytes[..|bytes| - 1]);
    }
  }

  lemma PieceIsTaken(fmt: Format, c: Collector, piece: Piece)
    requires Ready(fmt, c) && c.count == 0 && Undisturbed(fmt, piece)
    ensures Run(fmt, c, PieceBytes(piece)).count == 0
    ensures Outputs(fmt, c, PieceBytes(piece)) == PieceTaken(fmt, piece)
  {
    if piece.Sent? && piece.fmt == fmt {
      WholeFrame(fmt, c, piece.frame);
    } else {
      QuietBytes(fmt, c, PieceBytes(piece));
    }
  }

  /** Whatever the other formats send, as long as it holds no header byte, each own frame is taken over once. */
  lemma {:induction false} StreamTaken(fmt: Format, c: Collector, pieces: seq<Piece>)
    requires Ready(fmt, c) && c.count == 0
    requires forall k :: 0 <= k < |pieces| ==> Undisturbed(fmt, pieces[k])
    ensures Outputs(fmt, c, StreamOf(pieces)) == TakenFrom(fmt, pieces)
    ensures Run(fmt, c, StreamOf(pieces)).count == 0
  {
    hide Accepted, Push, Emit, Silence, Undisturbed, PieceTaken;
    if pieces != [] {
      var before, last := pieces[..|pieces| - 1], pieces[|pieces| - 1];
      StreamTaken(fmt, c, before);
      RunConcat(fmt, c, StreamOf(before), PieceBytes(last));
      PieceIsTaken(fmt, Run(fmt, c, StreamOf(before)), last);
    }
  }

  /** The last frame taken over on a stream. */
  function LastTaken(out: seq<Option<seq<bv8>>>): Option<seq<bv8>> {
    if out == [] then None
    else if out[|out| - 1].Some? then out[|out| - 1]
    else LastTaken(out[..|out| - 1])
  }

  lemma LastTakenOneMore(out: seq<Option<seq<bv8>>>, o: Option<seq<bv8>>)
    ensures LastTaken(out + [o]) == if o.Some? then o else LastTaken(out)
  {
    assert (out + [o])[..|out|] == out;
  }
}
