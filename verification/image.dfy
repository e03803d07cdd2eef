/**
 * The program image: a growable buffer of words with an emission cursor and
 * an entry point. Emitting appends at the cursor; patching writes at any
 * address; both grow the buffer with zeros when they reach past its end.
 */
module ImageBuilder {
  import opened Words
  import opened Chars
  import opened Wrappers

  function Max(a: nat, b: nat): nat
  {
    if a < b then b else a
  }

  function Zeros(n: nat): (z: seq<Word>)
    ensures |z| == n
    ensures forall i :: 0 <= i < n ==> z[i] == 0
  {
    seq(n, _ => 0)
  }

  /**
   * The buffer after `resize(required, 0)` when `required` exceeds its length,
   * and untouched otherwise: it never shrinks, keeps every word it had, and
   * every word it gains is zero.
   */
  function Grow(s: seq<Word>, required: nat): (r: seq<Word>)
    ensures |r| == Max(|s|, required)
    ensures r[..|s|] == s
    ensures forall i :: |s| <= i < |r| ==> r[i] == 0
  {
    if required > |s| then s + Zeros(required - |s|) else s
  }

  /** `s` with `data` written over the words starting at `at`, every other word kept. */
  function Overwrite(s: seq<Word>, at: nat, data: seq<Word>): (r: seq<Word>)
    requires at + |data| <= |s|
    ensures |r| == |s|
    ensures r[at..at + |data|] == data
    ensures forall i :: 0 <= i < |s| && !(at <= i < at + |data|) ==> r[i] == s[i]
  {
    s[..at] + data + s[at + |data|..]
  }

  /**
   * A copy of `n` words into the whole tail `buffer[base..]` of a buffer of
   * length `len`, grown first to hold `base + n` words, succeeds only when
   * that tail is exactly `n` words long.
   */
  predicate TailCopyFits(len: nat, base: nat, n: nat)
  {
    len <= base + n
  }

  /** The tail left after growing has exactly `n` words precisely when the copy fits. */
  lemma TailAfterGrow(s: seq<Word>, base: nat, n: nat)
    ensures base <= |Grow(s, base + n)|
    ensures |Grow(s, base + n)| - base == n <==> TailCopyFits(|s|, base, n)
  {
  }

  /** The words `emit_str` stores: one code point per character, in order. */
  function StrWords(s: string): (w: seq<Word>)
    ensures |w| == |s|
    ensures forall i :: 0 <= i < |s| ==> IntoChar(w[i]) == Some(s[i])
  {
    seq(|s|, i requires 0 <= i < |s| => CharCode(s[i]))
  }

  /**
   * The buffer after growing it to hold `data` at `at` and writing `data`
   * there: what every emit and patch operation leaves behind.
   */
  function PatchAt(s: seq<Word>, at: nat, data: seq<Word>): (r: seq<Word>)
    ensures |r| == Max(|s|, at + |data|)
    ensures r[at..at + |data|] == data
  {
    Overwrite(Grow(s, at + |data|), at, data)
  }

  /**
   * A patch keeps every other word the buffer had and zero-fills the gap
   * between the old end and the address.
   */
  lemma PatchAtEffect(s: seq<Word>, at: nat, data: seq<Word>)
    ensures forall i :: 0 <= i < |s| && !(at <= i < at + |data|) ==> PatchAt(s, at, data)[i] == s[i]
    ensures forall i :: |s| <= i < at ==> PatchAt(s, at, data)[i] == 0
  {
    var g := Grow(s, at + |data|);
    forall i | 0 <= i < |s| && !(at <= i < at + |data|)
      ensures PatchAt(s, at, data)[i] == s[i]
    {
      assert g[..|s|][i] == g[i];
    }
  }

  /** Emitting at the end of the buffer appends. */
  lemma PatchAtEnd(s: seq<Word>, data: seq<Word>)
    ensures PatchAt(s, |s|, data) == s + data
  {
    PatchAtTail(s, |s|, data);
    assert Grow(s, |s|) == s;
  }

  /** When the copy fits, the patched buffer ends exactly where the data ends. */
  lemma PatchAtTail(s: seq<Word>, at: nat, data: seq<Word>)
    requires TailCopyFits(|s|, at, |data|)
    ensures PatchAt(s, at, data) == Grow(s, at)[..at] + data
  {
    var g, h := Grow(s, at + |data|), Grow(s, at);
    assert |g| == at + |data|;
    assert g[..at] == h[..at] by {
      forall i | 0 <= i < at ensures g[i] == h[i] {
        if i < |s| {
          assert g[..|s|][i] == h[..|s|][i];
        }
      }
    }
  }

  class Image {
    var emitAddress: nat
    var entryPoint: nat
    var image: seq<Word>

    /** The cursor and the entry point never point past the end of the buffer. */
    ghost predicate Valid()
      reads this
    {
      emitAddress <= |image| && entryPoint <= |image|
    }

    constructor ()
      ensures Valid()
      ensures image == [] && emitAddress == 0 && entryPoint == 0
    {
      emitAddress := 0;
      entryPoint := 0;
      image := [];
    }

    /** Back to the state a fresh image starts in. */
    method Clear()
      modifies this
      ensures Valid()
      ensures image == [] && emitAddress == 0 && entryPoint == 0
    {
      image := [];
      emitAddress := 0;
      entryPoint := 0;
    }

    method PrepareSpace(wordsCount: nat)
      requires Valid()
      modifies this`image
      ensures Valid()
      ensures image == Grow(old(image), emitAddress + wordsCount)
    {
      var required := emitAddress + wordsCount;
      if required > |image| {
        image := image + Zeros(required - |image|);
      }
    }

    method PrepareSpaceInAddress(address: nat, wordsCount: nat)
      requires Valid()
      modifies this`image
      ensures Valid()
      ensures image == Grow(old(image), address + wordsCount)
    {
      var required := address + wordsCount;
      if required > |image| {
        image := image + Zeros(required - |image|);
      }
    }

    method Emit(code: Word)
      requires Valid() && emitAddress < |image|
      modifies this`image, this`emitAddress
      ensures Valid()
      ensures image == old(image)[old(emitAddress) := code]
      ensures emitAddress == old(emitAddress) + 1
    {
      image := image[emitAddress := code];
      emitAddress := emitAddress + 1;
    }

    method EmitOpcode(opcode: Word) returns (start: nat)
      requires Valid()
      modifies this
      ensures Valid()
      ensures start == old(emitAddress) && emitAddress == start + 1
      ensures entryPoint == old(entryPoint)
      ensures image == PatchAt(old(image), start, [opcode])
    {
      PrepareSpace(1);
      start := emitAddress;
      Emit(opcode);
    }

    method EmitOpcodeWithOperand(opcode: Word, operand: Word) returns (start: nat)
      requires Valid()
      modifies this
      ensures Valid()
      ensures start == old(emitAddress) && emitAddress == start + 2
      ensures entryPoint == old(entryPoint)
      ensures image == PatchAt(old(image), start, [opcode, operand])
    {
      PrepareSpace(2);
      start := emitAddress;
      Emit(opcode);
      Emit(operand);
    }

    method EmitOpcodeWithTwoOperands(opcode: Word, operand1: Word, operand2: Word) returns (start: nat)
      requires Valid()
      modifies this
      ensures Valid()
      ensures start == old(emitAddress) && emitAddress == start + 3
      ensures entryPoint == old(entryPoint)
      ensures image == PatchAt(old(image), start, [opcode, operand1, operand2])
    {
      PrepareSpace(3);
      start := emitAddress;
      Emit(opcode);
      Emit(operand1);
      Emit(operand2);
    }

    /** Stores the string one code point per word at the cursor; the copy fills the whole tail. */
    method EmitStr(s: string) returns (start: nat)
      requires Valid()
      requires TailCopyFits(|image|, emitAddress, |s|)
      modifies this
      ensures Valid()
      ensures start == old(emitAddress) && emitAddress == start + |s|
      ensures entryPoint == old(entryPoint)
      ensures image == PatchAt(old(image), start, StrWords(s))
      ensures |image| == start + |s|
    {
      start := emitAddress;
      var strInWords: seq<Word> := [];
      for i := 0 to |s|
        invariant strInWords == StrWords(s)[..i]
      {
        strInWords := strInWords + [CharCode(s[i])];
      }
      var wordsCounter := |strInWords|;
      PrepareSpace(wordsCounter);
      TailAfterGrow(old(image), emitAddress, wordsCounter);
      image := image[..emitAddress] + strInWords;
      PatchAtTail(old(image), start, strInWords);
      emitAddress := emitAddress + wordsCounter;
    }

    /** Appends the other image's whole buffer at the cursor, addresses in it unadjusted. */
    method EmitFromOther(other: Image) returns (start: nat)
      requires Valid()
      requires other != this
      requires TailCopyFits(|image|, emitAddress, |other.image|)
      modifies this
      ensures Valid()
      ensures start == old(emitAddress) && emitAddress == start + |other.image|
      ensures entryPoint == old(entryPoint)
      ensures image == PatchAt(old(image), start, other.image)
      ensures |image| == start + |other.image|
      ensures unchanged(other)
    {
      var wordCounter := |other.image|;
      PrepareSpace(wordCounter);
      start := emitAddress;
      TailAfterGrow(old(image), emitAddress, wordCounter);
      image := image[..emitAddress] + other.image;
      PatchAtTail(old(image), start, other.image);
      emitAddress := emitAddress + wordCounter;
    }

    method WriteWord(address: nat, value: Word)
      requires Valid()
      modifies this`image
      ensures Valid()
      ensures image == PatchAt(old(image), address, [value])
    {
      PrepareSpaceInAddress(address, 1);
      image := image[address := value];
    }

    /** Writes the data at the address; the copy fills the whole tail from there. */
    method WriteData(address: nat, data: seq<Word>)
      requires Valid()
      requires TailCopyFits(|image|, address, |data|)
      modifies this`image
      ensures Valid()
      ensures image == PatchAt(old(image), address, data)
      ensures |image| == address + |data|
    {
      PrepareSpaceInAddress(address, |data|);
      TailAfterGrow(old(image), address, |data|);
      image := image[..address] + data;
      PatchAtTail(old(image), address, data);
    }

    method ReadWord(address: nat) returns (w: Word)
      requires address < |image|
      ensures w == image[address]
    {
      w := image[address];
    }

    method SetEntryPointHere()
      requires Valid()
      modifies this`entryPoint
      ensures Valid()
      ensures entryPoint == emitAddress
    {
      entryPoint := emitAddress;
    }
  }
}
