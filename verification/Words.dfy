/** Disk blocks as bytes, and the 32-bit little-endian words stored in them
    (the log header and the indirect block are both arrays of such words). */
module Words {
  import opened Basics

  const BSIZE := 512
  const WORDS := BSIZE / 4

  type byte = x: int | 0 <= x < 256
  type word = x: int | 0 <= x < TWO32

  type Block = b: seq<byte> | |b| == BSIZE witness seq(BSIZE, _ => 0)

  const ZERO: Block := seq(BSIZE, _ => 0)

  function Value(b0: int, b1: int, b2: int, b3: int): (v: int)
  {
    b0 + 256 * (b1 + 256 * (b2 + 256 * b3))
  }

  /** The j-th word of a block. */
  function Word(b: Block, j: nat): (w: word)
    requires j < WORDS
  {
    Value(b[4 * j], b[4 * j + 1], b[4 * j + 2], b[4 * j + 3])
  }

  function Digit(w: word, k: nat): (d: byte)
    requires k < 4
  {
    if k == 0 then w % 256
    else if k == 1 then (w / 256) % 256
    else if k == 2 then (w / 256 / 256) % 256
    else w / 256 / 256 / 256
  }

  /** The block with its j-th word overwritten. */
  function PutWord(b: Block, j: nat, w: word): (r: Block)
    requires j < WORDS
  {
    b[4 * j := Digit(w, 0)][4 * j + 1 := Digit(w, 1)][4 * j + 2 := Digit(w, 2)][4 * j + 3 := Digit(w, 3)]
  }

  lemma DigitsMakeWord(w: word)
    ensures Value(Digit(w, 0), Digit(w, 1), Digit(w, 2), Digit(w, 3)) == w
  {
    var a := w / 256;
    var b := a / 256;
    assert w == 256 * a + w % 256 && a == 256 * b + a % 256 && b == 256 * (b / 256) + b % 256;
  }

  /** Storing a word changes that word to the stored value and no other word. */
  lemma PutWordGet(b: Block, j: nat, w: word, i: nat)
    requires j < WORDS && i < WORDS
    ensures Word(PutWord(b, j, w), i) == if i == j then w else Word(b, i)
  {
    DigitsMakeWord(w);
  }

  /** A zeroed block holds only zero words. */
  lemma ZeroWords()
    ensures forall j | 0 <= j < WORDS :: Word(ZERO, j) == 0
  {
    forall j | 0 <= j < WORDS ensures Word(ZERO, j) == 0 {
      assert ZERO[4 * j] == 0 && ZERO[4 * j + 1] == 0 && ZERO[4 * j + 2] == 0 && ZERO[4 * j + 3] == 0;
    }
  }
}
