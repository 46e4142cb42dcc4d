// Network byte order, and buffers filled in place.

module Bytes {
  import opened Numeric

  function Be16(x: u16): (b: seq<u8>)
    ensures |b| == 2
  {
    [x / 0x100, x % 0x100]
  }

  function Be24(x: int): seq<u8>
    requires 0 <= x < 0x100_0000
  {
    [x / 0x1_0000] + Be16(x % 0x1_0000)
  }

  function Be32(x: u32): (b: seq<u8>)
    ensures |b| == 4
  {
    Be16(x / 0x1_0000) + Be16(x % 0x1_0000)
  }

  function Value(b: seq<u8>, at: nat): (v: int)
    requires at < |b|
    ensures 0 <= v < 0x100
  {
    b[at]
  }

  function Read16(b: seq<u8>, at: nat): u16
    requires at + 2 <= |b|
  {
    Value(b, at) * 0x100 + Value(b, at + 1)
  }

  function Read24(b: seq<u8>, at: nat): u32
    requires at + 3 <= |b|
  {
    Value(b, at) * 0x1_0000 + Read16(b, at + 1)
  }

  function Read32(b: seq<u8>, at: nat): u32
    requires at + 4 <= |b|
  {
    Read16(b, at) * 0x1_0000 + Read16(b, at + 2)
  }

  lemma ReadBe16(b: seq<u8>, at: nat, x: u16)
    requires at + 2 <= |b| && b[at..at + 2] == Be16(x)
    ensures Read16(b, at) == x
  {
    assert b[at] == b[at..at + 2][0] && b[at + 1] == b[at..at + 2][1];
  }

  lemma ReadBe24(b: seq<u8>, at: nat, x: int)
    requires at + 3 <= |b| && 0 <= x < 0x100_0000 && b[at..at + 3] == Be24(x)
    ensures Read24(b, at) == x
  {
    assert b[at] == b[at..at + 3][0];
    assert b[at + 1..at + 3] == b[at..at + 3][1..];
    ReadBe16(b, at + 1, x % 0x1_0000);
  }

  lemma ReadBe32(b: seq<u8>, at: nat, x: u32)
    requires at + 4 <= |b| && b[at..at + 4] == Be32(x)
    ensures Read32(b, at) == x
  {
    assert b[at..at + 2] == b[at..at + 4][..2];
    assert b[at + 2..at + 4] == b[at..at + 4][2..];
    ReadBe16(b, at, x / 0x1_0000);
    ReadBe16(b, at + 2, x % 0x1_0000);
  }

  // The unsigned number in n bytes, the most significant first.
  function Number(b: seq<u8>, at: nat, n: nat): (v: nat)
    requires at + n <= |b|
    ensures n == 0 ==> v == 0
    ensures n == 1 ==> v < 0x100
    ensures n == 2 ==> v < 0x1_0000
    ensures n == 3 ==> v < 0x100_0000
    ensures n == 4 ==> v < 0x1_0000_0000
  {
    if n == 0 then 0 else Number(b, at, n - 1) * 256 + Value(b, at + n - 1)
  }

  lemma ReadsNumbers(b: seq<u8>, at: nat)
    ensures at + 2 <= |b| ==> Read16(b, at) == Number(b, at, 2)
    ensures at + 3 <= |b| ==> Read24(b, at) == Number(b, at, 3)
    ensures at + 4 <= |b| ==> Read32(b, at) == Number(b, at, 4)
  {
    if at + 2 <= |b| {
      assert Number(b, at, 1) == Number(b, at, 0) * 256 + Value(b, at);
      assert Number(b, at, 2) == Number(b, at, 1) * 256 + Value(b, at + 1);
    }
    if at + 3 <= |b| {
      assert Number(b, at, 3) == Number(b, at, 2) * 256 + Value(b, at + 2);
    }
    if at + 4 <= |b| {
      assert Number(b, at, 4) == Number(b, at, 3) * 256 + Value(b, at + 3);
    }
  }

  lemma {:induction false} NumberIn(x: seq<u8>, y: seq<u8>, at: nat, n: nat)
    requires at + n <= |x|
    ensures Number(x + y, at, n) == Number(x, at, n)
    decreases n
  {
    if n > 0 {
      NumberIn(x, y, at, n - 1);
    }
  }

  lemma {:induction false} NumberBehind(x: seq<u8>, y: seq<u8>, at: nat, n: nat)
    requires at + n <= |y|
    ensures Number(x + y, |x| + at, n) == Number(y, at, n)
    decreases n
  {
    if n > 0 {
      NumberBehind(x, y, at, n - 1);
    }
  }

  lemma Regroup(x: seq<u8>, y: seq<u8>, z: seq<u8>)
    ensures x + y + z == x + (y + z)
  {
  }

  lemma DropPrefix(x: seq<u8>, y: seq<u8>)
    ensures (x + y)[|x|..] == y
  {
  }

  lemma SliceTail(x: seq<u8>, y: seq<u8>, i: nat, j: nat)
    requires i <= j <= |y|
    ensures (x + y)[|x| + i..|x| + j] == y[i..j]
  {
  }

  lemma SliceSlice(b: seq<u8>, at: nat, end: nat, i: nat, j: nat)
    requires at <= end <= |b| && i <= j <= end - at
    ensures b[at..end][i..j] == b[at + i..at + j]
  {
    var x, y := b[at..end][i..j], b[at + i..at + j];
    assert |x| == |y| && forall k :: 0 <= k < |x| ==> x[k] == y[k];
  }

  function EncodeWords(ws: seq<u32>): (b: seq<u8>)
    ensures |b| == 4 * |ws|
  {
    if ws == [] then [] else Be32(ws[0]) + EncodeWords(ws[1..])
  }

  lemma {:induction false} WordAt(ws: seq<u32>, i: nat)
    requires i < |ws|
    ensures EncodeWords(ws)[4 * i..4 * i + 4] == Be32(ws[i])
  {
    if i > 0 {
      WordAt(ws[1..], i - 1);
      SliceTail(Be32(ws[0]), EncodeWords(ws[1..]), 4 * (i - 1), 4 * i);
    }
  }

  lemma ReadWord(b: seq<u8>, at: nat, ws: seq<u32>, i: nat)
    requires i < |ws| && at + 4 * |ws| <= |b| && b[at..at + 4 * |ws|] == EncodeWords(ws)
    ensures Read32(b, at + 4 * i) == ws[i]
  {
    hide EncodeWords, Read32, Be32;
    WordAt(ws, i);
    SliceSlice(b, at, at + 4 * |ws|, 4 * i, 4 * i + 4);
    ReadBe32(b, at + 4 * i, ws[i]);
  }

  // The contents after are those before with `bytes` written at `at`.
  predicate Written(before: seq<u8>, after: seq<u8>, at: nat, bytes: seq<u8>) {
    && |after| == |before|
    && at + |bytes| <= |before|
    && after == before[..at] + bytes + before[at + |bytes|..]
  }

  lemma WrittenThen(a: seq<u8>, b: seq<u8>, c: seq<u8>, at: nat, x: seq<u8>, y: seq<u8>)
    requires Written(a, b, at, x) && Written(b, c, at + |x|, y)
    ensures Written(a, c, at, x + y)
  {
    assert b[..at + |x|] == a[..at] + x;
    assert b[at + |x| + |y|..] == a[at + |x| + |y|..];
  }

  // Writing again over part of what was written.
  lemma WrittenOver(a: seq<u8>, b: seq<u8>, c: seq<u8>, at: nat, x: seq<u8>, k: nat, y: seq<u8>)
    requires Written(a, b, at, x) && Written(b, c, at + k, y) && k + |y| <= |x|
    ensures Written(a, c, at, x[..k] + y + x[k + |y|..])
  {
    assert b[..at + k] == a[..at] + x[..k];
    assert b[at + k + |y|..] == x[k + |y|..] + a[at + |x|..];
  }

  lemma WrittenPrefix(before: seq<u8>, after: seq<u8>, bytes: seq<u8>)
    requires Written(before, after, 0, bytes)
    ensures after[..|bytes|] == bytes
  {
  }

  lemma AfterWritten(start: seq<u8>, now: seq<u8>, base: nat, written: seq<u8>, k: nat)
    requires Written(start, now, base, written) && base + |written| <= k < |start|
    ensures now[k] == start[k]
  {
    assert now[base + |written|..] == start[base + |written|..];
    assert now[k] == now[base + |written|..][k - base - |written|];
  }

  method Put(buf: array<u8>, at: nat, bytes: seq<u8>) returns (next: nat)
    requires at + |bytes| <= buf.Length
    modifies buf
    ensures Written(old(buf[..]), buf[..], at, bytes)
    ensures next == at + |bytes|
  {
    for i := 0 to |bytes|
      invariant buf[..at] == old(buf[..at])
      invariant buf[at..at + i] == bytes[..i]
      invariant buf[at + i..] == old(buf[at + i..])
    {
      buf[at + i] := bytes[i];
    }
    assert buf[..] == buf[..at] + buf[at..at + |bytes|] + buf[at + |bytes|..];
    next := at + |bytes|;
  }

  // Writes directly behind what has been written from `base` on.
  method Append(buf: array<u8>, at: nat, bytes: seq<u8>, ghost start: seq<u8>, ghost base: nat, ghost written: seq<u8>)
    returns (next: nat)
    requires Written(start, buf[..], base, written)
    requires at == base + |written| && at + |bytes| <= buf.Length
    modifies buf
    ensures Written(start, buf[..], base, written + bytes)
    ensures next == at + |bytes|
  {
    ghost var before := buf[..];
    next := Put(buf, at, bytes);
    WrittenThen(start, before, buf[..], base, written, bytes);
  }

  method Zeroed(n: nat) returns (buf: array<u8>)
    ensures fresh(buf) && buf.Length == n && forall i :: 0 <= i < n ==> buf[i] == 0
  {
    buf := new u8[n](_ => 0);
  }
}
