/**
 * Reading a word back as a character: the inverse of the `c as Word`
 * encoding used when strings are stored one code point per word.
 */
module Chars {
  import opened Words
  import opened Wrappers

  const U32_MAX: int := 0xFFFF_FFFF

  /** A Unicode scalar value: a code point that is not a surrogate (Unicode Standard, section 3.9, definition D76). */
  predicate IsScalarValue(n: int)
  {
    0 <= n <= 0xD7FF || 0xE000 <= n <= 0x10FFFF
  }

  /** `char::from_u32`: a character for a scalar value, nothing for a surrogate or a value past U+10FFFF. */
  function FromU32(u: int): (r: Option<char>)
    requires 0 <= u <= U32_MAX
    ensures r.Some? <==> IsScalarValue(u)
    ensures r.Some? ==> r.value as int == u
  {
    if IsScalarValue(u) then Some(u as char) else None
  }

  /** `Word::into_char`: values wider than 32 bits are refused before `char::from_u32` is asked. */
  function IntoChar(w: Word): (r: Option<char>)
    ensures w > U32_MAX ==> r == None
    ensures r.Some? <==> IsScalarValue(w)
    ensures r.Some? ==> r.value as int == w
  {
    if w > U32_MAX then None else FromU32(w)
  }

  /** `c as Word`: the code point of a character. */
  function CharCode(c: char): (w: Word)
    ensures IsScalarValue(w)
  {
    c as int
  }

  /** Every character survives the trip through its code point. */
  lemma IntoCharOfCharCode(c: char)
    ensures IntoChar(CharCode(c)) == Some(c)
  {
  }

  /** A word that reads as a character is that character's code point. */
  lemma CharCodeOfIntoChar(w: Word)
    requires IntoChar(w).Some?
    ensures CharCode(IntoChar(w).value) == w
  {
  }
}
