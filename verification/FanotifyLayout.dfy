/** The record layout of fanotify(7), byte by byte, as the decoder of internal/tap/fanotify_linux.go reads it. */
module FanotifyLayout {
  import opened Fanotify

  /** The four bytes from `i` on as a number, least significant first. */
  function WordAt(b: seq<Byte>, i: nat): nat
    requires i + 4 <= |b|
  {
    (b[i] as int) + 0x100 * (b[i + 1] as int) + 0x1_0000 * (b[i + 2] as int) + 0x100_0000 * (b[i + 3] as int)
  }

  function SignedAt(b: seq<Byte>, i: nat): int
    requires i + 4 <= |b|
  {
    if b[i + 3] < 0x80 then WordAt(b, i) else WordAt(b, i) - 0x1_0000_0000
  }

  lemma ConsByte(x: Byte, b: seq<Byte>)
    ensures LittleEndian([x] + b) == x + 0x100 * LittleEndian(b)
  {
    assert ([x] + b)[1..] == b;
  }

  lemma FourBytes(w: Byte, x: Byte, y: Byte, z: Byte, more: seq<Byte>)
    ensures LittleEndian([w, x, y, z] + more)
         == (w as int) + 0x100 * (x as int) + 0x1_0000 * (y as int) + 0x100_0000 * (z as int)
            + 0x1_0000_0000 * LittleEndian(more)
  {
    ConsByte(z, more);
    ConsByte(y, [z] + more);
    ConsByte(x, [y] + ([z] + more));
    ConsByte(w, [x] + ([y] + ([z] + more)));
    assert [w, x, y, z] + more == [w] + ([x] + ([y] + ([z] + more)));
  }

  lemma WordOf(b: seq<Byte>, i: nat)
    requires i + 4 <= |b|
    ensures LittleEndian(b[i..i + 4]) == WordAt(b, i)
  {
    FourBytes(b[i], b[i + 1], b[i + 2], b[i + 3], []);
    assert b[i..i + 4] == [b[i], b[i + 1], b[i + 2], b[i + 3]] + [];
  }

  lemma DoubleWordOf(b: seq<Byte>, i: nat)
    requires i + 8 <= |b|
    ensures LittleEndian(b[i..i + 8]) == WordAt(b, i) + 0x1_0000_0000 * WordAt(b, i + 4)
  {
    WordOf(b, i + 4);
    FourBytes(b[i], b[i + 1], b[i + 2], b[i + 3], b[i + 4..i + 8]);
    assert b[i..i + 8] == [b[i], b[i + 1], b[i + 2], b[i + 3]] + b[i + 4..i + 8];
  }

  /** event_len at 0, mask at 8, fd at 16 and pid at 20; the last two are signed. */
  lemma Layout(b: seq<Byte>)
    requires |b| >= 24
    ensures EventLen(b) == WordAt(b, 0)
    ensures Decode(b).mask == WordAt(b, 8) + 0x1_0000_0000 * WordAt(b, 12)
    ensures Decode(b).fd == SignedAt(b, 16) && Decode(b).pid == SignedAt(b, 20)
  {
    WordOf(b, 0);
    DoubleWordOf(b, 8);
    WordOf(b, 16);
    WordOf(b, 20);
  }
}
