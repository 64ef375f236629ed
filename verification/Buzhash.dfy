/** The rolling hash of the content-defined chunker (core/chunker).

A 64-bit word is the sequence of its bits, lowest first. */
module Buzhash {
  import opened Bytes

  type Word = w: seq<bool> | |w| == 64 witness seq(64, _ => false)

  function Zero(): Word { seq(64, _ => false) }

  function Xor(a: Word, b: Word): Word {
    seq(64, i requires 0 <= i < 64 => a[i] != b[i])
  }

  function And(a: Word, b: Word): Word {
    seq(64, i requires 0 <= i < 64 => a[i] && b[i])
  }

  function Or(a: Word, b: Word): Word {
    seq(64, i requires 0 <= i < 64 => a[i] || b[i])
  }

  function Shl(a: Word, n: nat): Word {
    seq(64, i requires 0 <= i < 64 => i >= n && a[i - n])
  }

  function Shr(a: Word, n: nat): Word {
    seq(64, i requires 0 <= i < 64 => i + n < 64 && a[i + n])
  }

  function RotateLeft(a: Word, n: nat): Word {
    var s := n % 64;
    Or(Shl(a, s), Shr(a, 64 - s))
  }

  lemma XorAssoc(a: Word, b: Word, c: Word)
    ensures Xor(Xor(a, b), c) == Xor(a, Xor(b, c))
  {
  }

  lemma XorComm(a: Word, b: Word)
    ensures Xor(a, b) == Xor(b, a)
  {
  }

  lemma XorCancel(a: Word, b: Word)
    ensures Xor(a, Xor(a, b)) == b && Xor(a, Zero()) == a
  {
  }

  lemma RotateXor(a: Word, b: Word, n: nat)
    ensures RotateLeft(Xor(a, b), n) == Xor(RotateLeft(a, n), RotateLeft(b, n))
  {
  }

  lemma RotateOnce(a: Word, n: nat)
    requires n < 63
    ensures RotateLeft(RotateLeft(a, n), 1) == RotateLeft(a, n + 1)
  {
  }

  lemma RotateZero(a: Word, n: nat)
    ensures RotateLeft(a, 0) == a && RotateLeft(Zero(), n) == Zero()
  {
  }

  // Bit j comes from n places below it, around the end.
  lemma RotateBits(a: Word, n: nat, j: nat)
    requires n < 64 && j < 64
    ensures RotateLeft(a, n)[j] == a[if j >= n then j - n else j + 64 - n]
  {
  }

  const WINDOW := 48

  // The Buzhash of w: each byte's table word, rotated by its distance from the end.
  function Direct(table: byte -> Word, w: seq<byte>): Word {
    if w == [] then Zero() else Xor(RotateLeft(table(w[0]), |w| - 1), Direct(table, w[1..]))
  }

  // Whether an odd number of w's bytes have their bit for place j set: the last byte bit j,
  // the one before it the bit below, and so on around.
  ghost predicate OddAt(table: byte -> Word, w: seq<byte>, j: nat)
    requires j < 64
  {
    w != [] && (table(w[|w| - 1])[j] != OddAt(table, w[..|w| - 1], if j == 0 then 63 else j - 1))
  }

  // The hash bit by bit.
  lemma {:induction false} DirectBits(table: byte -> Word, w: seq<byte>, j: nat)
    requires |w| < 64 && j < 64
    ensures Direct(table, w)[j] == OddAt(table, w, j)
  {
    hide RotateLeft;
    if w != [] {
      var front, b := w[..|w| - 1], w[|w| - 1];
      assert w == front + [b];
      DirectAppend(table, front, b);
      DirectBits(table, front, if j == 0 then 63 else j - 1);
      RotateBits(Direct(table, front), 1, j);
    }
  }

  lemma {:induction false} DirectAppend(table: byte -> Word, w: seq<byte>, b: byte)
    requires |w| < 63
    ensures Direct(table, w + [b]) == Xor(RotateLeft(Direct(table, w), 1), table(b))
  {
    hide Xor, RotateLeft;
    if w == [] {
      RotateZero(table(b), 1);
      XorCancel(table(b), Zero());
      XorComm(Zero(), table(b));
    } else {
      var x, rest := table(w[0]), w[1..];
      DirectAppend(table, rest, b);
      assert (w + [b])[1..] == rest + [b];
      RotateOnce(x, |rest|);
      RotateXor(RotateLeft(x, |rest|), Direct(table, rest), 1);
      XorAssoc(RotateLeft(x, |w|), RotateLeft(Direct(table, rest), 1), table(b));
    }
  }

  // Rolling one byte in and the oldest out.
  function Rolled(table: byte -> Word, hash: Word, outByte: byte, b: byte): Word {
    Xor(Xor(RotateLeft(hash, 1), RotateLeft(table(outByte), WINDOW)), table(b))
  }

  lemma RollIsDirect(table: byte -> Word, w: seq<byte>, b: byte)
    requires |w| == WINDOW
    ensures Rolled(table, Direct(table, w), w[0], b) == Direct(table, w[1..] + [b])
  {
    hide Xor, RotateLeft;
    var x, rest := table(w[0]), w[1..];
    DirectAppend(table, rest, b);
    RotateOnce(x, 47);
    RotateXor(RotateLeft(x, 47), Direct(table, rest), 1);
    XorComm(RotateLeft(x, 48), RotateLeft(Direct(table, rest), 1));
    XorAssoc(RotateLeft(Direct(table, rest), 1), RotateLeft(x, 48), RotateLeft(x, 48));
    XorCancel(RotateLeft(x, 48), Zero());
    XorCancel(RotateLeft(Direct(table, rest), 1), Zero());
  }

  function Zeros(n: nat): seq<byte> {
    seq(n, _ => 0)
  }

  // zeroWindowHash: what the hash of a window of zeros must start as.
  method ZeroWindowHash(table: byte -> Word) returns (h: Word)
    ensures h == Direct(table, Zeros(WINDOW))
  {
    hide Xor, RotateLeft;
    h := Zero();
    XorComm(Zero(), Direct(table, Zeros(WINDOW)));
    XorCancel(Direct(table, Zeros(WINDOW)), Zero());
    var i := 0;
    while i < WINDOW
      invariant 0 <= i <= WINDOW
      invariant Xor(h, Direct(table, Zeros(WINDOW - i))) == Direct(table, Zeros(WINDOW))
    {
      var turn := RotateLeft(table(0), WINDOW - 1 - i);
      assert Zeros(WINDOW - i)[1..] == Zeros(WINDOW - i - 1);
      XorAssoc(h, turn, Direct(table, Zeros(WINDOW - i - 1)));
      h := Xor(h, turn);
      i := i + 1;
    }
    XorCancel(h, Zero());
  }
}
