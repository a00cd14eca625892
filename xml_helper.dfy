/**
 * Character classes of XML 1.0 used by the pull parser and the text
 * decoder: the start and continuation characters of names (productions
 * [4] NameStartChar and [4a] NameChar of section 2.3) and the legal
 * characters (production [2] Char of section 2.2).
 */
module XmlHelper {
  import opened Unicode

  /** `isNameStartChar`: the ranges of production [4], tested one after the other. */
  predicate IsNameStartChar(chr: nat)
  {
    if 'a' as nat <= chr <= 'z' as nat then true
    else if 'A' as nat <= chr <= 'Z' as nat then true
    else if chr == ':' as nat || chr == '_' as nat then true
    else if 0xC0 <= chr <= 0xD6 then true
    else if 0xD8 <= chr <= 0xF6 then true
    else if 0xF8 <= chr <= 0x2FF then true
    else if 0x370 <= chr <= 0x37D then true
    else if 0x37F <= chr <= 0x1FFF then true
    else if 0x200C <= chr <= 0x200D then true
    else if 0x2070 <= chr <= 0x218F then true
    else if 0x2C00 <= chr <= 0x2FEF then true
    else if 0x3001 <= chr <= 0xD7FF then true
    else if 0xF900 <= chr <= 0xFDCF then true
    else if 0xFDF0 <= chr <= 0xFFFD then true
    else 0x10000 <= chr <= 0xEFFFF
  }

  /** `isNameChar`: a name start character, or one of the extra characters of production [4a]. */
  predicate IsNameChar(chr: nat)
  {
    if IsNameStartChar(chr) then true
    else if '0' as nat <= chr <= '9' as nat then true
    else if chr == '-' as nat || chr == '.' as nat then true
    else if chr == 0xB7 then true
    else if 0x300 <= chr <= 0x36F then true
    else 0x203F <= chr <= 0x2040
  }

  /** Production [2] Char of XML 1.0, as the standard writes it. */
  predicate IsCharProduction(c: nat)
  {
    c == 0x9 || c == 0xA || c == 0xD || 0x20 <= c <= 0xD7FF || 0xE000 <= c <= 0xFFFD || 0x10000 <= c <= 0x10FFFF
  }

  /**
   * `isValidXmlChar`: production [2] with the surrogate block admitted,
   * which the codecs never deliver (their decoders reject surrogates).
   */
  function IsValidXmlChar(c: nat): (r: bool)
    ensures r <==> IsCharProduction(c) || IsSurrogate(c)
    ensures IsScalar(c) ==> (r <==> IsCharProduction(c))
  {
    if c == 0x09 || c == 0x0A || c == 0x0D then true
    else if 0x20 <= c <= 0xFFFD then true
    else 0x10000 <= c <= 0x10FFFF
  }

  /** Every name start character may also continue a name. */
  lemma NameStartIsNameChar(chr: nat)
    ensures IsNameStartChar(chr) ==> IsNameChar(chr)
  {
  }

  /** Digits, `-`, `.` and U+00B7 continue a name but cannot start one; letters, `:` and `_` can start one. */
  lemma NameCharClasses(chr: nat)
    ensures ('0' as nat <= chr <= '9' as nat || chr == '-' as nat || chr == '.' as nat || chr == 0xB7) ==>
              IsNameChar(chr) && !IsNameStartChar(chr)
    ensures ('a' as nat <= chr <= 'z' as nat || 'A' as nat <= chr <= 'Z' as nat || chr == ':' as nat || chr == '_' as nat) ==>
              IsNameStartChar(chr)
  {
  }

  /** U+0000, U+FFFE, U+FFFF and the other control characters are not XML characters. */
  lemma IllegalXmlChars(c: nat)
    ensures c == 0 || c == 0xFFFE || c == 0xFFFF || c > 0x10FFFF ==> !IsValidXmlChar(c)
    ensures c < 0x20 ==> (IsValidXmlChar(c) <==> c == 0x9 || c == 0xA || c == 0xD)
  {
  }
}
