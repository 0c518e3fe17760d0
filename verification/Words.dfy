/** Byte classes behind the vim words (internal/tui/panes/logpanel_motion.go). A char stands for one byte. */
module Words {

  type ClassFn = char -> bool

  predicate IsWord(b: char) {
    'a' <= b <= 'z' || 'A' <= b <= 'Z' || '0' <= b <= '9' || b == '_'
  }

  predicate IsWORD(b: char) {
    b != ' ' && b != '\t'
  }

  predicate Blank(b: char) {
    b == ' ' || b == '\t'
  }

  predicate AllBlank(s: string) {
    forall i :: 0 <= i < |s| ==> Blank(s[i])
  }

  /** 0 for whitespace, 1 for the class, 2 for punctuation. */
  function ClassOf(b: char, cls: ClassFn): (c: int)
    ensures 0 <= c <= 2
    ensures c == 0 <==> Blank(b)
    ensures c == 1 <==> !Blank(b) && cls(b)
  {
    if b == ' ' || b == '\t' then 0 else if cls(b) then 1 else 2
  }

  /** The class of the small motions by ASCII code: digits, capitals, the underscore and small letters. */
  lemma WordClass(b: char)
    ensures ClassOf(b, IsWord) == 1 <==>
              48 <= b as int <= 57 || 65 <= b as int <= 90 || b as int == 95 || 97 <= b as int <= 122
    ensures ClassOf(b, IsWord) == 0 <==> b as int == 32 || b as int == 9
  {}
}
