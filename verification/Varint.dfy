/** The byte-oriented variable-length integer code of the postings payload
    (unsigned LEB128, section 7.6 of DWARF Version 5). */
module Varint {

  type byte = x: nat | x < 0x100

  const UINT32_LIMIT: nat := 0x1_0000_0000

  /** What the writer produces for one value: seven bits a byte, low bits first,
      the high bit set on every byte but the last. */
  function Encode(value: nat): (bytes: seq<byte>)
    ensures 0 < |bytes|
  {
    if value >= 0x80 then [value % 0x80 + 0x80] + Encode(value / 0x80) else [value]
  }

  function EncodeAll(values: seq<nat>): seq<byte>
  {
    if values == [] then [] else Encode(values[0]) + EncodeAll(values[1..])
  }

  /** A reader without a buffer: the value of the first code in a byte stream and
      the number of bytes it takes, or nothing if the stream ends inside a code. */
  datatype Decoded = Truncated | Read(value: nat, length: nat)

  function Decode(bytes: seq<byte>): Decoded
  {
    if bytes == [] then Truncated
    else if bytes[0] < 0x80 then Read(bytes[0], 1)
    else match Decode(bytes[1..])
      case Truncated => Truncated
      case Read(high, length) => Read(bytes[0] - 0x80 + 0x80 * high, length + 1)
  }

  /** Round trip, whatever follows in the stream: codes are self-delimiting. */
  lemma {:induction false} DecodeEncode(value: nat, rest: seq<byte>)
    ensures Decode(Encode(value) + rest) == Read(value, |Encode(value)|)
  {
    if value >= 0x80 {
      DecodeEncode(value / 0x80, rest);
      assert (Encode(value) + rest)[1..] == Encode(value / 0x80) + rest;
    }
  }

  /** The form of a code: the high bit marks every byte but the last, and the last is not a
      zero that could be left out. Bytes weigh seven bits each, low ones first. */
  lemma {:induction false} EncodeForm(value: nat)
    ensures var bytes := Encode(value);
      && (forall i :: 0 <= i < |bytes| ==> (0x80 <= bytes[i] <==> i < |bytes| - 1))
      && (1 < |bytes| ==> 0 < bytes[|bytes| - 1])
      && WeightOf(bytes) == value
  {
    if value >= 0x80 {
      EncodeForm(value / 0x80);
      assert Encode(value)[1..] == Encode(value / 0x80);
    }
  }

  /** The low seven bits of each byte, put together. */
  function WeightOf(bytes: seq<byte>): nat
  {
    if bytes == [] then 0 else bytes[0] % 0x80 + 0x80 * WeightOf(bytes[1..])
  }

  /** No code is a prefix of another one, so a concatenation of codes can be cut
      back into its values in one way only. */
  lemma {:induction false} EncodeAllInjective(a: seq<nat>, b: seq<nat>)
    requires EncodeAll(a) == EncodeAll(b)
    ensures a == b
  {
    if a != [] && b != [] {
      DecodeEncode(a[0], EncodeAll(a[1..]));
      DecodeEncode(b[0], EncodeAll(b[1..]));
      assert EncodeAll(a)[|Encode(a[0])|..] == EncodeAll(a[1..]);
      assert EncodeAll(b)[|Encode(b[0])|..] == EncodeAll(b[1..]);
      EncodeAllInjective(a[1..], b[1..]);
    }
  }

  lemma {:induction false} EncodeAllAppend(a: seq<nat>, b: seq<nat>)
    ensures EncodeAll(a + b) == EncodeAll(a) + EncodeAll(b)
  {
    if a == [] {
      assert a + b == b;
    } else {
      EncodeAllAppend(a[1..], b);
      assert (a + b)[1..] == a[1..] + b;
    }
  }

  lemma {:induction false} EncodeAllPush(a: seq<nat>, v: nat)
    ensures EncodeAll(a + [v]) == EncodeAll(a) + Encode(v)
  {
    EncodeAllAppend(a, [v]);
    assert EncodeAll([v]) == Encode(v) + EncodeAll([]) == Encode(v);
  }

  /** A 32-bit value takes at most five bytes. */
  lemma EncodeLength(value: nat)
    requires value < UINT32_LIMIT
    ensures |Encode(value)| <= 5
  {
    assert |Encode(value)| <= 1 + |Encode(value / 0x80)|;
    var v := value / 0x80;
    assert v < 0x200_0000 && |Encode(v)| <= 1 + |Encode(v / 0x80)|;
    var u := v / 0x80;
    assert u < 0x4_0000 && |Encode(u)| <= 1 + |Encode(u / 0x80)|;
    var t := u / 0x80;
    assert t < 0x800 && |Encode(t)| <= 1 + |Encode(t / 0x80)|;
  }

  /** Whether the code of `value` starts at `pos` in `data`. */
  predicate At(data: seq<byte>, pos: nat, code: seq<byte>)
  {
    pos + |code| <= |data| && data[pos..pos + |code|] == code
  }

  lemma AtAppend(data: seq<byte>, pos: nat, a: seq<byte>, b: seq<byte>)
    ensures At(data, pos, a + b) <==> At(data, pos, a) && At(data, pos + |a|, b)
  {
    if At(data, pos, a + b) {
      var whole := data[pos..pos + |a + b|];
      assert whole[..|a|] == a && whole[|a|..] == b;
      assert data[pos..pos + |a|] == whole[..|a|];
      assert data[pos + |a|..pos + |a| + |b|] == whole[|a|..];
    }
    if At(data, pos, a) && At(data, pos + |a|, b) {
      assert data[pos..pos + |a + b|] == data[pos..pos + |a|] + data[pos + |a|..pos + |a| + |b|];
    }
  }

  /** The codes of `values` stand one after the other from `pos` on. */
  ghost predicate Coded(data: seq<byte>, pos: nat, values: seq<nat>)
    decreases |values|
  {
    values != [] ==>
      && At(data, pos, Encode(values[0]))
      && Coded(data, pos + |Encode(values[0])|, values[1..])
  }

  lemma TakeCode(data: seq<byte>, pos: nat, values: seq<nat>, i: nat)
    requires i < |values| && Coded(data, pos, values[i..])
    ensures At(data, pos, Encode(values[i]))
    ensures Coded(data, pos + |Encode(values[i])|, values[i + 1..])
  {
    assert values[i..][1..] == values[i + 1..];
  }

  lemma {:induction false} CodedIsEncodeAll(data: seq<byte>, pos: nat, values: seq<nat>)
    ensures pos <= |data| ==> (Coded(data, pos, values) <==> At(data, pos, EncodeAll(values)))
    decreases |values|
  {
    if values != [] && pos <= |data| {
      AtAppend(data, pos, Encode(values[0]), EncodeAll(values[1..]));
      CodedIsEncodeAll(data, pos + |Encode(values[0])|, values[1..]);
    }
  }

  method PutVarint(out: seq<byte>, value: nat) returns (extended: seq<byte>)
    requires value < UINT32_LIMIT
    ensures extended == out + Encode(value)
  {
    extended := out;
    var rest := value;
    while rest >= 0x80
      invariant extended + Encode(rest) == out + Encode(value)
    {
      assert Encode(rest) == [rest % 0x80 + 0x80] + Encode(rest / 0x80);
      assert extended + Encode(rest) == extended + [rest % 0x80 + 0x80] + Encode(rest / 0x80);
      extended := extended + [rest % 0x80 + 0x80];
      rest := rest / 0x80;
    }
    extended := extended + [rest];
  }

  /** `result` holds the bits of `value` below `scale`, `rest` the bits above. */
  ghost predicate Split(result: nat, scale: nat, rest: nat, value: nat)
  {
    result < scale && result + scale * rest == value
  }

  lemma TakeSevenBits(result: nat, scale: nat, rest: nat, value: nat)
    requires Split(result, scale, rest, value)
    ensures 0 <= rest % 0x80 * scale
    ensures Split(result + rest % 0x80 * scale, scale * 0x80, rest / 0x80, value)
    ensures result + rest % 0x80 * scale <= value
  {
    var low, high := rest % 0x80, rest / 0x80;
    assert rest == low + 0x80 * high;
    TakeLowBits(result, scale, low, high);
  }

  lemma TakeLowBits(result: nat, scale: nat, low: nat, high: nat)
    requires low < 0x80 && result < scale
    ensures 0 <= low * scale && result + low * scale < scale * 0x80
    ensures result + low * scale + scale * 0x80 * high == result + scale * (low + 0x80 * high)
    ensures 0 <= scale * 0x80 * high
  {
    assert low * scale <= 0x7f * scale;
    assert scale * (low + 0x80 * high) == low * scale + scale * (0x80 * high);
  }

  /** `result |= (byte & 0x7f) << shift; shift += 7` on a 32-bit accumulator: the
      bits of the accumulator from `shift` up are clear, so the disjunction is a sum;
      what leaves the register is dropped. */
  method AddBits(result: nat, scale: nat, b: byte, ghost rest: nat, ghost value: nat) returns (r: nat, s: nat)
    requires Split(result, scale, rest, value) && value < UINT32_LIMIT && b % 0x80 == rest % 0x80
    ensures Split(r, s, rest / 0x80, value)
    ensures rest < 0x80 ==> r == value
  {
    TakeSevenBits(result, scale, rest, value);
    var bits: nat := b % 0x80;
    r := (result + bits * scale) % UINT32_LIMIT;
    s := scale * 0x80;
  }

  method GetVarint(data: seq<byte>, pos: nat, ghost value: nat) returns (result: nat, next: nat)
    requires value < UINT32_LIMIT
    requires At(data, pos, Encode(value))
    ensures result == value && next == pos + |Encode(value)|
  {
    result, next := 0, pos;
    var scale := 1;  // 1 << shift
    ghost var rest := value;
    while true
      invariant Split(result, scale, rest, value)
      invariant At(data, next, Encode(rest)) && next + |Encode(rest)| == pos + |Encode(value)|
      decreases rest
    {
      var b := NextByte(data, next, rest);
      next := next + 1;
      result, scale := AddBits(result, scale, b, rest, value);
      if b < 0x80 {
        return;
      }
      rest := rest / 0x80;
    }
  }

  method NextByte(data: seq<byte>, pos: nat, ghost rest: nat) returns (b: byte)
    requires At(data, pos, Encode(rest))
    ensures b % 0x80 == rest % 0x80
    ensures if b < 0x80 then rest < 0x80 && |Encode(rest)| == 1
            else 0x80 <= rest && |Encode(rest)| == 1 + |Encode(rest / 0x80)| && At(data, pos + 1, Encode(rest / 0x80))
  {
    b := data[pos];
    assert b == data[pos..pos + |Encode(rest)|][0] == Encode(rest)[0];
    if b >= 0x80 {
      AtAppend(data, pos, [b], Encode(rest / 0x80));
    }
  }
}
