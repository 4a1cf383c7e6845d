/** compute_dh: a short Diffie-Hellman result is moved to the end of its fixed-width buffer, over
    itself, and the front is zeroed. */
module LeftPad {

  type Byte = b: nat | b < 256

  /** The value of big-endian bytes. */
  function BigEndian(s: seq<Byte>): nat {
    if s == [] then 0 else BigEndian(s[..|s| - 1]) * 256 + s[|s| - 1]
  }

  function Zeros(n: nat): seq<Byte> {
    seq(n, _ => 0)
  }

  lemma {:induction false} ZerosInFront(n: nat, s: seq<Byte>)
    ensures BigEndian(Zeros(n) + s) == BigEndian(s)
    decreases n + |s|
  {
    var t := Zeros(n) + s;
    if s != [] {
      assert t[..|t| - 1] == Zeros(n) + s[..|s| - 1];
      ZerosInFront(n, s[..|s| - 1]);
    } else if n > 0 {
      assert t[..n - 1] == Zeros(n - 1) + [];
      ZerosInFront(n - 1, []);
    }
  }

  function Power(e: nat): nat {
    if e == 0 then 1 else 256 * Power(e - 1)
  }

  lemma Regroup(a: nat, b: nat)
    ensures a * (256 * b) == (a * b) * 256
  {
  }

  /** What the value is: each byte weighs 256 times the one behind it. */
  lemma {:induction false} ValueOfParts(s: seq<Byte>, t: seq<Byte>)
    ensures BigEndian(s + t) == BigEndian(s) * Power(|t|) + BigEndian(t)
    decreases |t|
  {
    if t == [] {
      assert s + t == s;
    } else {
      ValueOfParts(s, t[..|t| - 1]);
      assert (s + t)[..|s + t| - 1] == s + t[..|t| - 1];
      Regroup(BigEndian(s), Power(|t| - 1));
    }
  }

  lemma ValueOfOne(b: Byte)
    ensures BigEndian([b]) == b
  {
    assert [b][..0] == [];
  }

  /** Bytes of one width are determined by their value. */
  lemma {:induction false} WidthAndValue(s: seq<Byte>, t: seq<Byte>)
    requires |s| == |t| && BigEndian(s) == BigEndian(t)
    ensures s == t
    decreases |s|
  {
    if s != [] {
      WidthAndValue(s[..|s| - 1], t[..|t| - 1]);
      assert s == s[..|s| - 1] + [s[|s| - 1]] && t == t[..|t| - 1] + [t[|t| - 1]];
    }
  }

  /** memmove to higher addresses: from the top down, so that overlapping bytes are read before they
      are overwritten. */
  method MoveUp(buf: array<Byte>, pad: nat, len: nat)
    requires pad + len <= buf.Length
    modifies buf
    ensures buf[pad..pad + len] == old(buf[..len])
    ensures buf[pad + len..] == old(buf[pad + len..])
  {
    var k := len;
    while k > 0
      invariant 0 <= k <= len
      invariant buf[pad + k..pad + len] == old(buf[k..len])
      invariant forall j :: 0 <= j < k ==> buf[j] == old(buf[j])
      invariant buf[pad + len..] == old(buf[pad + len..])
    {
      k := k - 1;
      buf[pad + k] := buf[k];
      assert old(buf[k..len]) == [old(buf[k])] + old(buf[k + 1..len]);
    }
  }

  /** After DH_compute_key has left len bytes at the head of buf: the buffer has the same value, and
      is the only one of its width that does. */
  method Pad(buf: array<Byte>, len: nat)
    requires len <= buf.Length
    modifies buf
    ensures buf[..] == Zeros(buf.Length - len) + old(buf[..len])
    ensures BigEndian(buf[..]) == BigEndian(old(buf[..len]))
    ensures forall t: seq<Byte> :: |t| == buf.Length && BigEndian(t) == BigEndian(old(buf[..len])) ==> t == buf[..]
  {
    ghost var value := buf[..len];
    var pad := buf.Length - len;
    if len < buf.Length {
      MoveUp(buf, pad, len);
      for k := 0 to pad
        invariant buf[pad..] == value
        invariant forall j :: 0 <= j < k ==> buf[j] == 0
      {
        buf[k] := 0;
      }
    }
    assert buf[..] == Zeros(pad) + value;
    ZerosInFront(pad, value);
    forall t: seq<Byte> | |t| == buf.Length && BigEndian(t) == BigEndian(value)
      ensures t == buf[..]
    {
      WidthAndValue(t, buf[..]);
    }
  }
}
