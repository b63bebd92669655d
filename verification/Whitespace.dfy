/** Go's strings.TrimSpace and Python's str.strip. */
module Whitespace {
  datatype Language = Go | Python

  /** Python also strips the four ASCII separators. */
  predicate IsSpace(c: char, language: Language) {
    || c in {'\t', '\n', '\U{000B}', '\U{000C}', '\r', ' ', '\U{0085}', '\U{00A0}', '\U{1680}'}
    || '\U{2000}' <= c <= '\U{200A}'
    || c in {'\U{2028}', '\U{2029}', '\U{202F}', '\U{205F}', '\U{3000}'}
    || (language.Python? && '\U{001C}' <= c <= '\U{001F}')
  }

  function TrimLeft(s: string, language: Language): string {
    if s != [] && IsSpace(s[0], language) then TrimLeft(s[1..], language) else s
  }

  function TrimRight(s: string, language: Language): string {
    if s != [] && IsSpace(s[|s| - 1], language) then TrimRight(s[..|s| - 1], language) else s
  }

  function Trim(s: string, language: Language): string {
    TrimRight(TrimLeft(s, language), language)
  }
}
