/** Unsigned little-endian integers and records of them, as `struct` packs them with a "<" format. */
module LittleEndian {
  import opened FixedWidth

  type Bytes = seq<u8>

  /** 256 to the power `width`. */
  function Capacity(width: nat): (c: nat)
    ensures c >= 1
  {
    if width == 0 then 1 else 256 * Capacity(width - 1)
  }

  function Decode(s: Bytes): (value: nat)
    ensures value < Capacity(|s|)
  {
    if s == [] then 0 else s[0] + 256 * Decode(s[1..])
  }

  function Encode(value: nat, width: nat): (s: Bytes)
    ensures |s| == width
  {
    if width == 0 then [] else [value % 256] + Encode(value / 256, width - 1)
  }

  lemma {:induction false} DecodeEncode(value: nat, width: nat)
    requires value < Capacity(width)
    ensures Decode(Encode(value, width)) == value
  {
    if width > 0 {
      DecodeEncode(value / 256, width - 1);
      assert Encode(value, width)[1..] == Encode(value / 256, width - 1);
    }
  }

  lemma {:induction false} EncodeDecode(s: Bytes)
    ensures Encode(Decode(s), |s|) == s
  {
    if s != [] {
      EncodeDecode(s[1..]);
      assert Decode(s) % 256 == s[0] && Decode(s) / 256 == Decode(s[1..]);
    }
  }

  // ------------------------------------------------------------------ records

  function TotalWidth(widths: seq<nat>): nat {
    if widths == [] then 0 else widths[0] + TotalWidth(widths[1..])
  }

  ghost predicate Fits(widths: seq<nat>, values: seq<nat>) {
    |values| == |widths| && forall k :: 0 <= k < |widths| ==> values[k] < Capacity(widths[k])
  }

  function Pack(widths: seq<nat>, values: seq<nat>): (s: Bytes)
    requires |values| == |widths|
    ensures |s| == TotalWidth(widths)
  {
    if widths == [] then [] else Encode(values[0], widths[0]) + Pack(widths[1..], values[1..])
  }

  function Unpack(widths: seq<nat>, s: Bytes): (values: seq<nat>)
    requires |s| == TotalWidth(widths)
    ensures |values| == |widths|
  {
    if widths == [] then [] else [Decode(s[..widths[0]])] + Unpack(widths[1..], s[widths[0]..])
  }

  lemma {:induction false} UnpackPack(widths: seq<nat>, values: seq<nat>)
    requires Fits(widths, values)
    ensures Unpack(widths, Pack(widths, values)) == values
  {
    if widths != [] {
      DecodeEncode(values[0], widths[0]);
      UnpackPack(widths[1..], values[1..]);
      var s := Pack(widths, values);
      assert s[..widths[0]] == Encode(values[0], widths[0]);
      assert s[widths[0]..] == Pack(widths[1..], values[1..]);
    }
  }

  lemma {:induction false} PackUnpack(widths: seq<nat>, s: Bytes)
    requires |s| == TotalWidth(widths)
    ensures Fits(widths, Unpack(widths, s))
    ensures Pack(widths, Unpack(widths, s)) == s
  {
    if widths != [] {
      EncodeDecode(s[..widths[0]]);
      PackUnpack(widths[1..], s[widths[0]..]);
      var values := Unpack(widths, s);
      assert values[1..] == Unpack(widths[1..], s[widths[0]..]);
      forall k | 0 <= k < |widths|
        ensures values[k] < Capacity(widths[k])
      {
        if k > 0 {
          assert values[k] == values[1..][k - 1] && widths[k] == widths[1..][k - 1];
        }
      }
      assert s == s[..widths[0]] + s[widths[0]..];
    }
  }
}
