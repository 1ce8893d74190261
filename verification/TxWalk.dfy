/** Walking a serialized Bitcoin transaction to one of its outputs (internal/content/serve.go). */
module TxWalk {
  import opened Numbers
  import opened Wrappers

  const TWO_TO_THE_63: int := 0x8000_0000_0000_0000
  const TWO_TO_THE_64: int := 0x1_0000_0000_0000_0000

  /** Go's int: what a uint64, or the sum of two ints, becomes in 64 signed bits. */
  function Wrap64(x: int): int {
    if x >= TWO_TO_THE_63 then x - TWO_TO_THE_64
    else if x < -TWO_TO_THE_63 then x + TWO_TO_THE_64
    else x
  }

  /** What extractOutputScript does: return bytes, return an error, or slice out of range. */
  datatype Extraction = Script(bytes: seq<byte>) | Rejected | Panics

  /** readVarInt: the value and the number of bytes read. */
  function ReadVarInt(data: seq<byte>): (r: (nat, nat))
    ensures data != [] ==> 1 <= r.1 <= |data|
  {
    if |data| == 0 then (0, 0)
    else if data[0] < 0xfd then (data[0], 1)
    else if data[0] == 0xfd then if |data| < 3 then (0, 1) else (FromLittleEndian(data[1..3]), 3)
    else if data[0] == 0xfe then if |data| < 5 then (0, 1) else (FromLittleEndian(data[1..5]), 5)
    else if |data| < 9 then (0, 1) else (FromLittleEndian(data[1..9]), 9)
  }

  predicate InSlice(tx: seq<byte>, pos: int) {
    0 <= pos <= |tx|
  }

  /** The position after the input at pos, or how the walk ends in it. */
  function AfterInput(tx: seq<byte>, pos: int): Result<int, Extraction> {
    var at := Wrap64(pos + 36);
    if !InSlice(tx, at) then Failure(Panics)
    else
      var (scriptLen, n) := ReadVarInt(tx[at..]);
      var next := Wrap64(Wrap64(at + n + Wrap64(scriptLen)) + 4);
      if next > |tx| then Failure(Rejected) else Success(next)
  }

  function SkipInputs(tx: seq<byte>, pos: int, i: int, count: int): Result<int, Extraction>
    decreases count - i
  {
    if i >= count then Success(pos)
    else
      match AfterInput(tx, pos)
      case Failure(e) => Failure(e)
      case Success(next) => SkipInputs(tx, next, i + 1, count)
  }

  /** Where the script of the output at pos begins and ends, or how the walk ends in it. */
  function ScriptBounds(tx: seq<byte>, pos: int): Result<(int, int), Extraction> {
    var at := Wrap64(pos + 8);
    if at > |tx| then Failure(Rejected)
    else if at < 0 then Failure(Panics)
    else
      var (scriptLen, n) := ReadVarInt(tx[at..]);
      var upto := Wrap64(at + n + Wrap64(scriptLen));
      if upto > |tx| then Failure(Rejected) else Success((at + n, upto))
  }

  function Slice(tx: seq<byte>, from: int, upto: int): Extraction {
    if 0 <= from <= upto <= |tx| then Script(tx[from..upto]) else Panics
  }

  /** The script of output vout, walking outputs i..count from pos. */
  function FindOutput(tx: seq<byte>, pos: int, i: int, count: int, vout: int): Extraction
    decreases count - i
  {
    if i >= count then Rejected
    else
      match ScriptBounds(tx, pos)
      case Failure(e) => e
      case Success((from, upto)) =>
        if i == vout then Slice(tx, from, upto) else FindOutput(tx, upto, i + 1, count, vout)
  }

  function Extracted(tx: seq<byte>, vout: int): Extraction {
    if |tx| < 10 then Rejected
    else
      var (inputCount, n) := ReadVarInt(tx[4..]);
      match SkipInputs(tx, 4 + n, 0, Wrap64(inputCount))
      case Failure(e) => e
      case Success(pos) =>
        if !InSlice(tx, pos) then Panics
        else
          var (outputCount, m) := ReadVarInt(tx[pos..]);
          if vout >= Wrap64(outputCount) then Rejected
          else FindOutput(tx, pos + m, 0, Wrap64(outputCount), vout)
  }

  /** The body of the input loop. */
  method SkipInput(tx: seq<byte>, start: int) returns (r: Result<int, Extraction>)
    ensures r == AfterInput(tx, start)
  {
    var pos := Wrap64(start + 32 + 4);
    if !InSlice(tx, pos) {
      return Failure(Panics);
    }
    var (scriptLen, n) := ReadVarInt(tx[pos..]);
    pos := pos + n;
    pos := Wrap64(pos + Wrap64(scriptLen));
    pos := Wrap64(pos + 4);
    return if pos > |tx| then Failure(Rejected) else Success(pos);
  }

  /** The body of the output loop up to the script. */
  method ReadScriptBounds(tx: seq<byte>, start: int) returns (r: Result<(int, int), Extraction>)
    ensures r == ScriptBounds(tx, start)
  {
    if Wrap64(start + 8) > |tx| {
      return Failure(Rejected);
    }
    var pos := Wrap64(start + 8);
    if pos < 0 {
      return Failure(Panics);
    }
    var (scriptLen, n) := ReadVarInt(tx[pos..]);
    pos := pos + n;
    var upto := Wrap64(pos + Wrap64(scriptLen));
    return if upto > |tx| then Failure(Rejected) else Success((pos, upto));
  }

  /** extractOutputScript. A position that leaves the slice is where the code would panic. */
  method ExtractOutputScript(tx: seq<byte>, vout: int) returns (r: Extraction)
    ensures r == Extracted(tx, vout)
  {
    hide ReadVarInt, AfterInput, FindOutput;
    if |tx| < 10 {
      return Rejected;
    }
    var (inputCount, n) := ReadVarInt(tx[4..]);
    var pos: int := 4 + n;
    var i, count := 0, Wrap64(inputCount);
    while i < count
      invariant SkipInputs(tx, 4 + n, 0, count) == SkipInputs(tx, pos, i, count)
    {
      var next := SkipInput(tx, pos);
      if next.Failure? {
        return next.error;
      }
      pos := next.value;
      i := i + 1;
    }
    if !InSlice(tx, pos) {
      return Panics;
    }
    var (outputCount, m) := ReadVarInt(tx[pos..]);
    r := WalkOutputs(tx, pos + m, Wrap64(outputCount), vout);
  }

  method WalkOutputs(tx: seq<byte>, start: int, count: int, vout: int) returns (r: Extraction)
    ensures r == if vout >= count then Rejected else FindOutput(tx, start, 0, count, vout)
  {
    hide ScriptBounds, Slice;
    if vout >= count {
      return Rejected;
    }
    var pos, i := start, 0;
    while i < count
      invariant FindOutput(tx, start, 0, count, vout) == FindOutput(tx, pos, i, count, vout)
    {
      var bounds := ReadScriptBounds(tx, pos);
      if bounds.Failure? {
        return bounds.error;
      }
      if i == vout {
        return Slice(tx, bounds.value.0, bounds.value.1);
      }
      pos := bounds.value.1;
      i := i + 1;
    }
    return Rejected;
  }

  // ------------------------------------------- well-formed transactions

  /** The widths of a compact size: one byte, or a marker and 2, 4 or 8 bytes. */
  predicate CompactFits(n: nat, width: nat) {
    || (width == 1 && n < 0xfd)
    || (width == 3 && n < 0x1_0000)
    || (width == 5 && n < TWO_TO_THE_32)
    || (width == 9 && n < TWO_TO_THE_64)
  }

  /** A compact size of any width the number fits in, not only the shortest. */
  function CompactSize(n: nat, width: nat): (b: seq<byte>)
    requires CompactFits(n, width)
    ensures |b| == width
  {
    if width == 1 then [n]
    else [if width == 3 then 0xfd else if width == 5 then 0xfe else 0xff] + ToLittleEndian(n, width - 1)
  }

  /** The bytes s stand at position pos. */
  predicate At(tx: seq<byte>, pos: nat, s: seq<byte>) {
    pos + |s| <= |tx| && tx[pos..pos + |s|] == s
  }

  lemma AtConcat(tx: seq<byte>, pos: nat, a: seq<byte>, b: seq<byte>)
    requires At(tx, pos, a + b)
    ensures At(tx, pos, a) && At(tx, pos + |a|, b)
  {
    assert (a + b)[..|a|] == a && (a + b)[|a|..] == b;
    assert tx[pos..pos + |a + b|][..|a|] == tx[pos..pos + |a|];
    assert tx[pos..pos + |a + b|][|a|..] == tx[pos + |a|..pos + |a + b|];
  }

  lemma ReadCompactSize(tx: seq<byte>, pos: nat, n: nat, width: nat)
    requires CompactFits(n, width) && At(tx, pos, CompactSize(n, width))
    ensures ReadVarInt(tx[pos..]) == (n, width)
  {
    var b, data := CompactSize(n, width), tx[pos..];
    assert data[..width] == b;
    assert data[0] == b[0];
    if width > 1 {
      assert data[1..width] == b[1..];
      assert Shift(1, 2) == 0x1_0000 && Shift(1, 4) == TWO_TO_THE_32 && Shift(1, 8) == TWO_TO_THE_64;
      LittleEndianRoundTrip(n, width - 1);
    }
  }

  /** How many bytes stand behind a first byte. */
  function BytesBehind(first: byte): nat {
    if first == 0xfd then 2 else if first == 0xfe then 4 else if first == 0xff then 8 else 0
  }

  /** On any bytes: what is read is the compact size they begin with, and one cut short reads as a zero of one byte. */
  lemma ReadVarIntExactly(data: seq<byte>)
    ensures data == [] ==> ReadVarInt(data) == (0, 0)
    ensures data != [] && |data| <= BytesBehind(data[0]) ==> ReadVarInt(data) == (0, 1)
    ensures data != [] && |data| > BytesBehind(data[0]) ==>
      var (n, width) := ReadVarInt(data);
      CompactFits(n, width) && data[..width] == CompactSize(n, width)
  {
    if data != [] && |data| > BytesBehind(data[0]) && BytesBehind(data[0]) > 0 {
      var width := BytesBehind(data[0]) + 1;
      var b := data[1..width];
      LittleEndianBytes(b);
      LittleEndianBound(b);
      assert Shift(1, 2) == 0x1_0000 && Shift(1, 4) == TWO_TO_THE_32 && Shift(1, 8) == TWO_TO_THE_64;
      assert data[..width] == [data[0]] + b;
    }
  }

  datatype TxIn = TxIn(outpoint: seq<byte>, script: seq<byte>, width: nat, sequence: seq<byte>) {
    predicate Valid() {
      |outpoint| == 36 && CompactFits(|script|, width) && |sequence| == 4
    }

    function Bytes(): seq<byte>
      requires Valid()
    {
      outpoint + CompactSize(|script|, width) + script + sequence
    }
  }

  datatype TxOut = TxOut(value: seq<byte>, script: seq<byte>, width: nat) {
    predicate Valid() {
      |value| == 8 && CompactFits(|script|, width)
    }

    function Bytes(): seq<byte>
      requires Valid()
    {
      value + CompactSize(|script|, width) + script
    }
  }

  ghost predicate ValidInputs(ins: seq<TxIn>) {
    forall i :: 0 <= i < |ins| ==> ins[i].Valid()
  }

  ghost predicate ValidOutputs(outs: seq<TxOut>) {
    forall i :: 0 <= i < |outs| ==> outs[i].Valid()
  }

  ghost function InputBytes(ins: seq<TxIn>): seq<byte>
    requires ValidInputs(ins)
  {
    if ins == [] then [] else ins[0].Bytes() + InputBytes(ins[1..])
  }

  ghost function OutputBytes(outs: seq<TxOut>): seq<byte>
    requires ValidOutputs(outs)
  {
    if outs == [] then [] else outs[0].Bytes() + OutputBytes(outs[1..])
  }

  /** A transaction with the width chosen for each of its counts. */
  datatype Tx = Tx(
    version: seq<byte>, inputs: seq<TxIn>, inputWidth: nat, outputs: seq<TxOut>, outputWidth: nat, lockTime: seq<byte>)

  ghost predicate WellFormed(t: Tx) {
    && |t.version| == 4 && |t.lockTime| == 4
    && ValidInputs(t.inputs) && CompactFits(|t.inputs|, t.inputWidth)
    && ValidOutputs(t.outputs) && CompactFits(|t.outputs|, t.outputWidth)
  }

  ghost function Serialize(t: Tx): seq<byte>
    requires WellFormed(t)
  {
    t.version + (CompactSize(|t.inputs|, t.inputWidth) + (InputBytes(t.inputs) +
      (CompactSize(|t.outputs|, t.outputWidth) + (OutputBytes(t.outputs) + t.lockTime))))
  }

  // The walk over one input lands just after it.
  lemma OneInput(tx: seq<byte>, pos: nat, x: TxIn)
    requires x.Valid() && |tx| < TWO_TO_THE_63 && At(tx, pos, x.Bytes())
    ensures AfterInput(tx, pos) == Success(pos + |x.Bytes()|)
  {
    hide ReadVarInt, CompactSize;
    var size := CompactSize(|x.script|, x.width);
    AtConcat(tx, pos, x.outpoint + size + x.script, x.sequence);
    AtConcat(tx, pos, x.outpoint + size, x.script);
    AtConcat(tx, pos, x.outpoint, size);
    ReadCompactSize(tx, pos + 36, |x.script|, x.width);
  }

  // The first input stands at pos and the others after it.
  lemma FirstInput(tx: seq<byte>, pos: nat, ins: seq<TxIn>)
    requires ins != [] && ValidInputs(ins) && At(tx, pos, InputBytes(ins))
    ensures ins[0].Valid() && ValidInputs(ins[1..])
    ensures InputBytes(ins) == ins[0].Bytes() + InputBytes(ins[1..])
    ensures At(tx, pos, ins[0].Bytes()) && At(tx, pos + |ins[0].Bytes()|, InputBytes(ins[1..]))
  {
    hide At, CompactSize;
    AtConcat(tx, pos, ins[0].Bytes(), InputBytes(ins[1..]));
  }

  lemma SkipOne(tx: seq<byte>, pos: int, next: int, i: int, count: int)
    requires i < count && AfterInput(tx, pos) == Success(next)
    ensures SkipInputs(tx, pos, i, count) == SkipInputs(tx, next, i + 1, count)
  {
  }

  lemma {:induction false} SkipsAllInputs(tx: seq<byte>, pos: nat, ins: seq<TxIn>, i: nat, count: nat)
    requires ValidInputs(ins) && |tx| < TWO_TO_THE_63 && At(tx, pos, InputBytes(ins)) && count == i + |ins|
    ensures SkipInputs(tx, pos, i, count) == Success(pos + |InputBytes(ins)|)
    decreases |ins|
  {
    hide At, AfterInput, CompactSize, CompactFits, ReadVarInt;
    if ins != [] {
      FirstInput(tx, pos, ins);
      var next := pos + |ins[0].Bytes()|;
      OneInput(tx, pos, ins[0]);
      SkipOne(tx, pos, next, i, count);
      SkipsAllInputs(tx, next, ins[1..], i + 1, count);
    }
  }

  lemma OneOutput(tx: seq<byte>, pos: nat, x: TxOut)
    requires x.Valid() && |tx| < TWO_TO_THE_63 && At(tx, pos, x.Bytes())
    ensures ScriptBounds(tx, pos) == Success((pos + 8 + x.width, pos + |x.Bytes()|))
    ensures Slice(tx, pos + 8 + x.width, pos + |x.Bytes()|) == Script(x.script)
  {
    hide ReadVarInt, CompactSize;
    var size := CompactSize(|x.script|, x.width);
    AtConcat(tx, pos, x.value + size, x.script);
    AtConcat(tx, pos, x.value, size);
    ReadCompactSize(tx, pos + 8, |x.script|, x.width);
  }

  /** What the walk should find: the script of output vout, if there is one. */
  function ScriptOf(outs: seq<TxOut>, vout: int): Extraction {
    if 0 <= vout < |outs| then Script(outs[vout].script) else Rejected
  }

  lemma FirstOutput(tx: seq<byte>, pos: nat, outs: seq<TxOut>)
    requires outs != [] && ValidOutputs(outs) && At(tx, pos, OutputBytes(outs))
    ensures outs[0].Valid() && ValidOutputs(outs[1..])
    ensures OutputBytes(outs) == outs[0].Bytes() + OutputBytes(outs[1..])
    ensures At(tx, pos, outs[0].Bytes()) && At(tx, pos + |outs[0].Bytes()|, OutputBytes(outs[1..]))
  {
    hide At, CompactSize;
    AtConcat(tx, pos, outs[0].Bytes(), OutputBytes(outs[1..]));
  }

  lemma FindOne(tx: seq<byte>, pos: int, from: int, upto: int, i: int, count: int, vout: int)
    requires i < count && ScriptBounds(tx, pos) == Success((from, upto))
    ensures FindOutput(tx, pos, i, count, vout) ==
            if i == vout then Slice(tx, from, upto) else FindOutput(tx, upto, i + 1, count, vout)
  {
  }

  lemma {:induction false} FindsOutput(tx: seq<byte>, pos: nat, outs: seq<TxOut>, i: nat, count: nat, vout: int)
    requires ValidOutputs(outs) && |tx| < TWO_TO_THE_63 && At(tx, pos, OutputBytes(outs)) && count == i + |outs|
    ensures FindOutput(tx, pos, i, count, vout) == ScriptOf(outs, vout - i)
    decreases |outs|
  {
    hide At, ScriptBounds, CompactSize, CompactFits, ReadVarInt;
    if outs != [] {
      FirstOutput(tx, pos, outs);
      var next := pos + |outs[0].Bytes()|;
      OneOutput(tx, pos, outs[0]);
      FindOne(tx, pos, pos + 8 + outs[0].width, next, i, count, vout);
      FindsOutput(tx, next, outs[1..], i + 1, count, vout);
    }
  }

  // Six sections one after the other stand where their lengths say.
  lemma Sections(tx: seq<byte>, a: seq<byte>, b: seq<byte>, c: seq<byte>, d: seq<byte>, e: seq<byte>, f: seq<byte>)
    requires tx == a + (b + (c + (d + (e + f))))
    ensures At(tx, |a|, b) && At(tx, |a| + |b|, c)
    ensures At(tx, |a| + |b| + |c|, d) && At(tx, |a| + |b| + |c| + |d|, e)
  {
    AtConcat(tx, 0, a, b + (c + (d + (e + f))));
    AtConcat(tx, |a|, b, c + (d + (e + f)));
    AtConcat(tx, |a| + |b|, c, d + (e + f));
    AtConcat(tx, |a| + |b| + |c|, d, e + f);
    AtConcat(tx, |a| + |b| + |c| + |d|, e, f);
  }

  lemma LaidOut(t: Tx, tx: seq<byte>)
    requires WellFormed(t) && tx == Serialize(t)
    ensures At(tx, 4, CompactSize(|t.inputs|, t.inputWidth))
    ensures At(tx, 4 + t.inputWidth, InputBytes(t.inputs))
    ensures At(tx, 4 + t.inputWidth + |InputBytes(t.inputs)|, CompactSize(|t.outputs|, t.outputWidth))
    ensures At(tx, 4 + t.inputWidth + |InputBytes(t.inputs)| + t.outputWidth, OutputBytes(t.outputs))
  {
    hide At, CompactSize, InputBytes, OutputBytes;
    Sections(tx, t.version, CompactSize(|t.inputs|, t.inputWidth), InputBytes(t.inputs),
             CompactSize(|t.outputs|, t.outputWidth), OutputBytes(t.outputs), t.lockTime);
  }

  // The walk put together from what it reads at each stage.
  lemma Stages(tx: seq<byte>, vout: int, inputs: nat, n: nat, pos: nat, outputs: nat, m: nat, r: Extraction)
    requires |tx| >= 10 && inputs < TWO_TO_THE_63 && outputs < TWO_TO_THE_63 && pos <= |tx|
    requires ReadVarInt(tx[4..]) == (inputs, n) && SkipInputs(tx, 4 + n, 0, inputs) == Success(pos)
    requires ReadVarInt(tx[pos..]) == (outputs, m) && FindOutput(tx, pos + m, 0, outputs, vout) == r
    requires vout >= outputs ==> r == Rejected
    ensures Extracted(tx, vout) == r
  {
    hide ReadVarInt, SkipInputs, FindOutput;
  }

  // A counted list of inputs at pos is read and skipped, and a counted list of outputs is searched.
  lemma CountedInputs(tx: seq<byte>, pos: nat, ins: seq<TxIn>, width: nat)
    requires ValidInputs(ins) && CompactFits(|ins|, width) && |tx| < TWO_TO_THE_63
    requires At(tx, pos, CompactSize(|ins|, width)) && At(tx, pos + width, InputBytes(ins))
    ensures ReadVarInt(tx[pos..]) == (|ins|, width)
    ensures SkipInputs(tx, pos + width, 0, |ins|) == Success(pos + width + |InputBytes(ins)|)
  {
    hide *;
    ReadCompactSize(tx, pos, |ins|, width);
    SkipsAllInputs(tx, pos + width, ins, 0, |ins|);
  }

  lemma CountedOutputs(tx: seq<byte>, pos: nat, outs: seq<TxOut>, width: nat, vout: int)
    requires ValidOutputs(outs) && CompactFits(|outs|, width) && |tx| < TWO_TO_THE_63
    requires At(tx, pos, CompactSize(|outs|, width)) && At(tx, pos + width, OutputBytes(outs))
    ensures ReadVarInt(tx[pos..]) == (|outs|, width)
    ensures FindOutput(tx, pos + width, 0, |outs|, vout) == ScriptOf(outs, vout)
  {
    hide *;
    ReadCompactSize(tx, pos, |outs|, width);
    FindsOutput(tx, pos + width, outs, 0, |outs|, vout);
  }

  /** From any well-formed transaction, exactly the script of output vout comes back when there is one, and an error
      otherwise. */
  lemma ExtractsFromWellFormed(t: Tx, vout: int)
    requires WellFormed(t) && |Serialize(t)| < TWO_TO_THE_63
    ensures Extracted(Serialize(t), vout) ==
            if 0 <= vout < |t.outputs| then Script(t.outputs[vout].script) else Rejected
  {
    hide Extracted, ReadVarInt, SkipInputs, FindOutput, CompactSize, InputBytes, OutputBytes, Serialize;
    var tx := Serialize(t);
    var pos := 4 + t.inputWidth + |InputBytes(t.inputs)|;
    CountsFit(t);
    LaidOut(t, tx);
    CountedInputs(tx, 4, t.inputs, t.inputWidth);
    CountedOutputs(tx, pos, t.outputs, t.outputWidth, vout);
    Stages(tx, vout, |t.inputs|, t.inputWidth, pos, |t.outputs|, t.outputWidth, ScriptOf(t.outputs, vout));
  }

  lemma CountsFit(t: Tx)
    requires WellFormed(t) && |Serialize(t)| < TWO_TO_THE_63
    ensures |t.inputs| < TWO_TO_THE_63 && |t.outputs| < TWO_TO_THE_63 && |Serialize(t)| >= 10
  {
    InputsTakeRoom(t.inputs);
    OutputsTakeRoom(t.outputs);
  }

  lemma {:induction false} InputsTakeRoom(ins: seq<TxIn>)
    requires ValidInputs(ins)
    ensures |InputBytes(ins)| >= |ins|
  {
    if ins != [] {
      InputsTakeRoom(ins[1..]);
    }
  }

  lemma {:induction false} OutputsTakeRoom(outs: seq<TxOut>)
    requires ValidOutputs(outs)
    ensures |OutputBytes(outs)| >= |outs|
  {
    if outs != [] {
      OutputsTakeRoom(outs[1..]);
    }
  }

  // ------------------------------------------------- where the walk panics

  /** The walk's position at its i-th input, if it gets there. */
  function InputAt(tx: seq<byte>, i: nat): Option<int>
    requires |tx| >= 4
  {
    if i == 0 then Some(4 + ReadVarInt(tx[4..]).1)
    else
      match InputAt(tx, i - 1)
      case None => None
      case Some(pos) => if AfterInput(tx, pos).Success? then Some(AfterInput(tx, pos).value) else None
  }

  /** The walk's position at the j-th output of those that begin at start, if it gets there. */
  function OutputAt(tx: seq<byte>, start: int, j: nat): Option<int> {
    if j == 0 then Some(start)
    else
      match OutputAt(tx, start, j - 1)
      case None => None
      case Some(pos) => if ScriptBounds(tx, pos).Success? then Some(ScriptBounds(tx, pos).value.1) else None
  }

  /** The 36 bytes of the outpoint at pos do not end inside the transaction. */
  predicate OutpointCut(tx: seq<byte>, pos: int) {
    !(0 <= pos + 36 <= |tx|)
  }

  /** The script whose length stands at position at ends past the largest int, by the given margin. */
  predicate ScriptOverflows(tx: seq<byte>, at: int, margin: nat) {
    InSlice(tx, at) &&
    var (scriptLen, n) := ReadVarInt(tx[at..]);
    at + n + scriptLen + margin >= TWO_TO_THE_63
  }

  ghost predicate InputPanics(tx: seq<byte>, count: int, i: nat)
    requires |tx| >= 4
  {
    i < count && InputAt(tx, i).Some? && OutpointCut(tx, InputAt(tx, i).value)
  }

  /** The value of output j ends before the transaction begins, or its script is asked for and overflows. */
  ghost predicate OutputPanics(tx: seq<byte>, start: int, count: int, vout: int, j: nat) {
    && j < count && (vout < 0 || j <= vout) && OutputAt(tx, start, j).Some?
    && var pos := OutputAt(tx, start, j).value;
      Wrap64(pos + 8) < 0 || (j == vout && ScriptOverflows(tx, pos + 8, 0))
  }

  ghost predicate SomeInputPanics(tx: seq<byte>, count: int)
    requires |tx| >= 4
  {
    exists i :: InputPanics(tx, count, i)
  }

  ghost predicate SomeOutputPanics(tx: seq<byte>, start: int, count: int, vout: int) {
    exists j :: OutputPanics(tx, start, count, vout, j)
  }

  /** Whether the walk slices out of range, told from the positions it reaches. */
  ghost predicate WalkPanics(tx: seq<byte>, vout: int)
    requires |tx| >= 10
  {
    var inputs := Wrap64(ReadVarInt(tx[4..]).0);
    var afterInputs := InputAt(tx, Max(0, inputs));
    SomeInputPanics(tx, inputs) || (afterInputs.Some? && PanicsAfterInputs(tx, afterInputs.value, vout))
  }

  /** The inputs led to before the transaction begins, or one of the outputs that stand at pos panics. */
  ghost predicate PanicsAfterInputs(tx: seq<byte>, pos: int, vout: int) {
    pos < 0 ||
    (pos <= |tx| &&
     var (outputCount, m) := ReadVarInt(tx[pos..]);
     vout < Wrap64(outputCount) && SomeOutputPanics(tx, pos + m, Wrap64(outputCount), vout))
  }

  // How an input ends: its outpoint is cut, it runs past the end, or it leads
  // on, backwards exactly when its script overflows.
  lemma InputOutcome(tx: seq<byte>, pos: int)
    requires |tx| < TWO_TO_THE_63 && -TWO_TO_THE_63 <= pos <= |tx|
    ensures AfterInput(tx, pos) == Failure(Panics) <==> OutpointCut(tx, pos)
    ensures AfterInput(tx, pos).Failure? ==> AfterInput(tx, pos).error in {Panics, Rejected}
    ensures AfterInput(tx, pos).Success? ==>
      var next := AfterInput(tx, pos).value;
      -TWO_TO_THE_63 <= next <= |tx| && (next < pos + 36 ==> ScriptOverflows(tx, pos + 36, 4))
  {
    if !OutpointCut(tx, pos) {
      LengthIsUint64(tx, pos + 36);
    }
  }

  lemma LengthIsUint64(tx: seq<byte>, at: int)
    requires InSlice(tx, at)
    ensures ReadVarInt(tx[at..]).0 < TWO_TO_THE_64 && at + ReadVarInt(tx[at..]).1 <= |tx|
  {
    var data := tx[at..];
    assert Shift(1, 2) == 0x1_0000 && Shift(1, 4) == TWO_TO_THE_32 && Shift(1, 8) == TWO_TO_THE_64;
    if |data| >= 3 {
      LittleEndianBound(data[1..3]);
    }
    if |data| >= 5 {
      LittleEndianBound(data[1..5]);
    }
    if |data| >= 9 {
      LittleEndianBound(data[1..9]);
    }
  }

  lemma OutputOutcome(tx: seq<byte>, pos: int)
    requires |tx| < TWO_TO_THE_63 && -TWO_TO_THE_63 <= pos <= |tx|
    ensures ScriptBounds(tx, pos) == Failure(Panics) <==> Wrap64(pos + 8) < 0
    ensures ScriptBounds(tx, pos).Failure? ==> ScriptBounds(tx, pos).error in {Panics, Rejected}
    ensures ScriptOverflows(tx, pos + 8, 0) ==> ScriptBounds(tx, pos).Success?
    ensures ScriptBounds(tx, pos).Success? ==>
      var (from, upto) := ScriptBounds(tx, pos).value;
      && -TWO_TO_THE_63 <= upto <= |tx|
      && (Slice(tx, from, upto) == Panics <==> ScriptOverflows(tx, pos + 8, 0))
      && (upto < pos ==> ScriptOverflows(tx, pos + 8, 0))
  {
    if InSlice(tx, pos + 8) {
      LengthIsUint64(tx, pos + 8);
    }
  }

  lemma WrapTwice(at: int, length: nat)
    requires 0 <= at < TWO_TO_THE_63 && length < TWO_TO_THE_64
    ensures Wrap64(at + Wrap64(length)) ==
            if at + length >= TWO_TO_THE_63 then at + length - TWO_TO_THE_64 else at + length
  {
  }

  /** Where an input whose outpoint is whole leads: behind its script and sequence, or 2^64 before that when it is past
      the largest int; the walk ends there if that is past the end of the transaction. */
  lemma InputEnd(tx: seq<byte>, pos: int)
    requires |tx| < TWO_TO_THE_63 - 4 && -36 <= pos <= |tx| - 36
    ensures var (scriptLen, n) := ReadVarInt(tx[pos + 36..]);
      var end := pos + 36 + n + scriptLen + 4;
      var next := if end >= TWO_TO_THE_63 then end - TWO_TO_THE_64 else end;
      AfterInput(tx, pos) == if next > |tx| then Failure(Rejected) else Success(next)
  {
    hide ReadVarInt;
    LengthIsUint64(tx, pos + 36);
    var (scriptLen, n) := ReadVarInt(tx[pos + 36..]);
    WrapTwice(pos + 36 + n, scriptLen);
  }

  /** The bounds of an output's script likewise; the bytes may end just behind the value or the script. */
  lemma OutputEnd(tx: seq<byte>, pos: int)
    requires |tx| < TWO_TO_THE_63 && -8 <= pos <= |tx|
    ensures |tx| < pos + 8 < TWO_TO_THE_63 ==> ScriptBounds(tx, pos) == Failure(Rejected)
    ensures pos + 8 <= |tx| ==>
      var (scriptLen, n) := ReadVarInt(tx[pos + 8..]);
      var from, end := pos + 8 + n, pos + 8 + n + scriptLen;
      var upto := if end >= TWO_TO_THE_63 then end - TWO_TO_THE_64 else end;
      ScriptBounds(tx, pos) == if upto > |tx| then Failure(Rejected) else Success((from, upto))
  {
    hide ReadVarInt;
    assert pos + 8 < TWO_TO_THE_63 ==> Wrap64(pos + 8) == pos + 8;
    if pos + 8 <= |tx| {
      LengthIsUint64(tx, pos + 8);
      var (scriptLen, n) := ReadVarInt(tx[pos + 8..]);
      WrapTwice(pos + 8 + n, scriptLen);
    }
  }

  lemma {:induction false} InputPosition(tx: seq<byte>, i: nat)
    requires 4 <= |tx| < TWO_TO_THE_63 && InputAt(tx, i).Some?
    ensures -TWO_TO_THE_63 <= InputAt(tx, i).value <= |tx|
  {
    hide AfterInput, ReadVarInt;
    if i == 0 {
      LengthIsUint64(tx, 4);
    } else {
      InputPosition(tx, i - 1);
      InputOutcome(tx, InputAt(tx, i - 1).value);
    }
  }

  lemma {:induction false} InputsPanic(tx: seq<byte>, i: nat, count: int)
    requires 4 <= |tx| < TWO_TO_THE_63 && InputAt(tx, i).Some?
    ensures var walk := SkipInputs(tx, InputAt(tx, i).value, i, count);
      && (walk == Failure(Panics) <==> exists k :: k >= i && InputPanics(tx, count, k))
      && (walk.Failure? ==> walk.error in {Panics, Rejected})
      && (walk.Success? <==> InputAt(tx, Max(i, count)).Some?)
      && (walk.Success? ==> walk.value == InputAt(tx, Max(i, count)).value)
    decreases count - i
  {
    hide AfterInput, ReadVarInt, OutpointCut;
    InputPosition(tx, i);
    if i < count {
      var pos := InputAt(tx, i).value;
      InputOutcome(tx, pos);
      if AfterInput(tx, pos).Success? {
        InputsPanic(tx, i + 1, count);
        assert !InputPanics(tx, count, i);
      } else {
        assert InputAt(tx, i + 1).None?;
        NoInputAfter(tx, i + 1, count);
        assert InputPanics(tx, count, i) <==> AfterInput(tx, pos) == Failure(Panics);
      }
    }
  }

  lemma {:induction false} NoInputAfter(tx: seq<byte>, i: nat, k: int)
    requires |tx| >= 4 && i <= k && InputAt(tx, i).None?
    ensures forall j :: i <= j <= k ==> InputAt(tx, j).None?
    ensures forall j, count :: i <= j ==> !InputPanics(tx, count, j)
    decreases k - i
  {
    forall j: nat | i <= j
      ensures InputAt(tx, j).None?
    {
      NoInputAt(tx, i, j);
    }
  }

  lemma {:induction false} NoInputAt(tx: seq<byte>, i: nat, j: nat)
    requires |tx| >= 4 && i <= j && InputAt(tx, i).None?
    ensures InputAt(tx, j).None?
  {
    if i < j {
      NoInputAt(tx, i, j - 1);
    }
  }

  lemma {:induction false} NoOutputAt(tx: seq<byte>, start: int, i: nat, j: nat)
    requires i <= j && OutputAt(tx, start, i).None?
    ensures OutputAt(tx, start, j).None?
  {
    if i < j {
      NoOutputAt(tx, start, i, j - 1);
    }
  }

  lemma {:induction false} OutputPosition(tx: seq<byte>, start: int, j: nat)
    requires |tx| < TWO_TO_THE_63 && -TWO_TO_THE_63 <= start <= |tx| && OutputAt(tx, start, j).Some?
    ensures -TWO_TO_THE_63 <= OutputAt(tx, start, j).value <= |tx|
  {
    hide ScriptBounds, ScriptOverflows, Slice;
    if j > 0 {
      OutputPosition(tx, start, j - 1);
      OutputOutcome(tx, OutputAt(tx, start, j - 1).value);
    }
  }

  lemma {:induction false} OutputsPanic(tx: seq<byte>, start: int, j: nat, count: int, vout: int)
    requires |tx| < TWO_TO_THE_63 && -TWO_TO_THE_63 <= start <= |tx| && OutputAt(tx, start, j).Some?
    requires vout < 0 || j <= vout
    ensures FindOutput(tx, OutputAt(tx, start, j).value, j, count, vout) == Panics <==>
            exists k :: k >= j && OutputPanics(tx, start, count, vout, k)
    decreases count - j
  {
    hide ScriptBounds, ScriptOverflows, Slice;
    OutputPosition(tx, start, j);
    if j < count {
      var pos := OutputAt(tx, start, j).value;
      OutputOutcome(tx, pos);
      if ScriptBounds(tx, pos).Failure? {
        forall k: nat | k > j
          ensures OutputAt(tx, start, k).None?
        {
          NoOutputAt(tx, start, j + 1, k);
        }
        assert OutputPanics(tx, start, count, vout, j) <==> Wrap64(pos + 8) < 0;
      } else if j == vout {
        assert OutputPanics(tx, start, count, vout, j) <==> ScriptOverflows(tx, pos + 8, 0);
      } else {
        OutputsPanic(tx, start, j + 1, count, vout);
        assert !OutputPanics(tx, start, count, vout, j);
      }
    }
  }

  /** On any bytes the walk slices out of range exactly when an input's outpoint does not end inside the transaction,
      the inputs or an output's value end before it begins, or the script asked for overflows. */
  lemma PanicsExactly(tx: seq<byte>, vout: int)
    requires |tx| < TWO_TO_THE_63
    ensures Extracted(tx, vout) == Panics <==> |tx| >= 10 && WalkPanics(tx, vout)
  {
    if |tx| >= 10 {
      hide ReadVarInt, FindOutput, SkipInputs, InputAt, Extracted, SomeInputPanics, PanicsAfterInputs, AfterInput,
           OutputsFail, Max;
      var inputs := Wrap64(ReadVarInt(tx[4..]).0);
      PanicsByStage(tx, vout);
      InputsPanicFromStart(tx, inputs);
      var after := InputAt(tx, Max(0, inputs));
      if after.Some? {
        InputPosition(tx, Max(0, inputs));
        OutputStage(tx, after.value, vout);
      }
    }
  }

  // The rest of the walk, from the position the inputs led to.
  ghost predicate OutputsFail(tx: seq<byte>, pos: int, vout: int) {
    !InSlice(tx, pos) ||
    (var (outputCount, m) := ReadVarInt(tx[pos..]);
     vout < Wrap64(outputCount) && FindOutput(tx, pos + m, 0, Wrap64(outputCount), vout) == Panics)
  }

  lemma OutputStage(tx: seq<byte>, pos: int, vout: int)
    requires |tx| < TWO_TO_THE_63 && pos <= |tx|
    ensures PanicsAfterInputs(tx, pos, vout) <==> OutputsFail(tx, pos, vout)
  {
    hide ReadVarInt, FindOutput, SomeOutputPanics;
    if pos >= 0 {
      LengthIsUint64(tx, pos);
      var (outputCount, m) := ReadVarInt(tx[pos..]);
      OutputsPanicFromStart(tx, pos + m, Wrap64(outputCount), vout);
    }
  }

  lemma InputsPanicFromStart(tx: seq<byte>, count: int)
    requires 4 <= |tx| < TWO_TO_THE_63
    ensures var walk := SkipInputs(tx, 4 + ReadVarInt(tx[4..]).1, 0, count);
      && (walk == Failure(Panics) <==> SomeInputPanics(tx, count))
      && (walk.Success? <==> InputAt(tx, Max(0, count)).Some?)
      && (walk.Success? ==> walk.value == InputAt(tx, Max(0, count)).value)
  {
    hide AfterInput, ReadVarInt, SkipInputs, InputPanics;
    assert InputAt(tx, 0) == Some(4 + ReadVarInt(tx[4..]).1);
    InputsPanic(tx, 0, count);
    assert SomeInputPanics(tx, count) <==> exists k :: k >= 0 && InputPanics(tx, count, k);
  }

  lemma PanicsByStage(tx: seq<byte>, vout: int)
    requires |tx| >= 10
    ensures Extracted(tx, vout) == Panics <==>
      var (inputCount, n) := ReadVarInt(tx[4..]);
      var walk := SkipInputs(tx, 4 + n, 0, Wrap64(inputCount));
      walk == Failure(Panics) || (walk.Success? && OutputsFail(tx, walk.value, vout))
  {
    hide ReadVarInt, SkipInputs, FindOutput;
  }

  lemma OutputsPanicFromStart(tx: seq<byte>, start: int, count: int, vout: int)
    requires |tx| < TWO_TO_THE_63 && -TWO_TO_THE_63 <= start <= |tx|
    ensures FindOutput(tx, start, 0, count, vout) == Panics <==> SomeOutputPanics(tx, start, count, vout)
  {
    hide ScriptBounds, ScriptOverflows, FindOutput;
    assert OutputAt(tx, start, 0) == Some(start);
    OutputsPanic(tx, start, 0, count, vout);
    assert SomeOutputPanics(tx, start, count, vout) <==> exists k :: k >= 0 && OutputPanics(tx, start, count, vout, k);
  }

  /** No script length in the bytes, wherever it is read, leads past the largest int. */
  ghost predicate NoOverflow(tx: seq<byte>) {
    forall at :: InSlice(tx, at) ==> !ScriptOverflows(tx, at, 4)
  }

  lemma {:induction false} ForwardInputs(tx: seq<byte>, i: nat)
    requires 4 <= |tx| < TWO_TO_THE_63 && NoOverflow(tx) && InputAt(tx, i).Some?
    ensures 0 <= InputAt(tx, i).value <= |tx|
  {
    hide AfterInput, ReadVarInt, ScriptOverflows;
    if i == 0 {
      LengthIsUint64(tx, 4);
    } else {
      ForwardInputs(tx, i - 1);
      InputPosition(tx, i);
      InputOutcome(tx, InputAt(tx, i - 1).value);
    }
  }

  lemma {:induction false} ForwardOutputs(tx: seq<byte>, start: nat, j: nat)
    requires start <= |tx| < TWO_TO_THE_63 && NoOverflow(tx) && OutputAt(tx, start, j).Some?
    ensures 0 <= OutputAt(tx, start, j).value <= |tx|
  {
    hide ScriptBounds, ScriptOverflows, Slice;
    if j > 0 {
      ForwardOutputs(tx, start, j - 1);
      OutputOutcome(tx, OutputAt(tx, start, j - 1).value);
      LessMargin(tx, OutputAt(tx, start, j - 1).value + 8);
    }
  }

  lemma LessMargin(tx: seq<byte>, at: int)
    ensures ScriptOverflows(tx, at, 0) ==> ScriptOverflows(tx, at, 4)
  {
  }

  /** The transaction ends inside the outpoint of one of these inputs. */
  ghost predicate EndsInOutpoint(tx: seq<byte>, count: int)
    requires |tx| >= 4
  {
    exists i: nat :: i < count && InputAt(tx, i).Some? && InputAt(tx, i).value + 36 > |tx|
  }

  lemma InputPanicsAreCuts(tx: seq<byte>, count: int)
    requires 4 <= |tx| < TWO_TO_THE_63 && NoOverflow(tx)
    ensures SomeInputPanics(tx, count) <==> EndsInOutpoint(tx, count)
  {
    hide InputAt, NoOverflow;
    forall i: nat | InputAt(tx, i).Some?
      ensures OutpointCut(tx, InputAt(tx, i).value) <==> InputAt(tx, i).value + 36 > |tx|
    {
      ForwardInputs(tx, i);
    }
    if EndsInOutpoint(tx, count) {
      var i: nat :| i < count && InputAt(tx, i).Some? && InputAt(tx, i).value + 36 > |tx|;
      assert InputPanics(tx, count, i);
    }
  }

  /** Where no length leads past the largest int, the walk panics exactly when the transaction ends inside the 36-byte
      outpoint of an input it promises. */
  lemma PanicsOnCutOutpoint(tx: seq<byte>, vout: int)
    requires |tx| + 8 < TWO_TO_THE_63 && NoOverflow(tx)
    ensures Extracted(tx, vout) == Panics <==>
            |tx| >= 10 && EndsInOutpoint(tx, Wrap64(ReadVarInt(tx[4..]).0))
  {
    hide ReadVarInt, Extracted, InputAt, SomeInputPanics, SomeOutputPanics, EndsInOutpoint, NoOverflow, Wrap64;
    PanicsExactly(tx, vout);
    if |tx| >= 10 {
      var inputs := Wrap64(ReadVarInt(tx[4..]).0);
      InputPanicsAreCuts(tx, inputs);
      var after := InputAt(tx, Max(0, inputs));
      if after.Some? {
        ForwardInputs(tx, Max(0, inputs));
        LengthIsUint64(tx, after.value);
        var (outputCount, m) := ReadVarInt(tx[after.value..]);
        OutputsNeverPanic(tx, after.value + m, Wrap64(outputCount), vout);
      }
    }
  }

  lemma OutputsNeverPanic(tx: seq<byte>, start: nat, count: int, vout: int)
    requires start <= |tx| && |tx| + 8 < TWO_TO_THE_63 && NoOverflow(tx)
    ensures !SomeOutputPanics(tx, start, count, vout)
  {
    hide ScriptBounds, ScriptOverflows, OutputAt;
    forall j: nat
      ensures !OutputPanics(tx, start, count, vout, j)
    {
      if OutputAt(tx, start, j).Some? {
        ForwardOutputs(tx, start, j);
        LessMargin(tx, OutputAt(tx, start, j).value + 8);
      }
    }
  }

  /** Ten bytes that promise an input and end inside its outpoint. */
  lemma ShortTransactionPanics()
    ensures Extracted([1, 0, 0, 0, 1, 0, 0, 0, 0, 0], 0) == Panics
  {
    var tx: seq<byte> := [1, 0, 0, 0, 1, 0, 0, 0, 0, 0];
    assert tx[4..][0] == 1;
    assert SkipInputs(tx, 5, 0, 1) == Failure(Panics);
  }
}
