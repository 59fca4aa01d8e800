/** The syntax table of src/regexpr.c: which bytes are word characters. */
module RegexTables {
  import opened RegexSyntax

  /** The table says of each byte what its syntax is. */
  ghost predicate IsSyntaxTable(table: seq<byte>) {
    |table| == 256 && forall c: byte :: table[c] == SyntaxOf(c)
  }

  /** The letters and the digits, written out. */
  predicate IsWordChar(c: char) {
    c in "abcdefghijklmnopqrstuvwxyz" || c in "ABCDEFGHIJKLMNOPQRSTUVWXYZ" || c in "0123456789"
  }

  lemma SyntaxIs(c: byte)
    ensures IsWord(c) <==> IsWordChar(c as char)
    ensures SyntaxOf(c) == if IsWordChar(c as char) then 1 else 0
  {
    hide IsWordChar;
    CharIs(c as char);
  }

  lemma WordCharacters(c: byte)
    ensures var ch := c as char;
      IsWord(c) <==> ch in "abcdefghijklmnopqrstuvwxyz" || ch in "ABCDEFGHIJKLMNOPQRSTUVWXYZ" || ch in "0123456789"
  {
    hide IsWord;
    SyntaxIs(c);
  }

  lemma CharIs(c: char)
    ensures IsWordChar(c) <==> 'a' <= c <= 'z' || 'A' <= c <= 'Z' || '0' <= c <= '9'
  {
    Lower(c);
    Upper(c);
    Digit(c);
  }

  lemma Lower(c: char)
    ensures c in "abcdefghijklmnopqrstuvwxyz" <==> 'a' <= c <= 'z'
  {
  }

  lemma Upper(c: char)
    ensures c in "ABCDEFGHIJKLMNOPQRSTUVWXYZ" <==> 'A' <= c <= 'Z'
  {
  }

  lemma Digit(c: char)
    ensures c in "0123456789" <==> '0' <= c <= '9'
  {
  }

  /** re_compile_initialize: in a table of zeros three loops enter the letters and the digits.  Their entries,
      and no others, are 1. */
  method SyntaxTable() returns (table: seq<byte>)
    ensures IsSyntaxTable(table)
    ensures |table| == 256 && forall c: byte :: table[c] == if IsWordChar(c as char) then 1 else 0
  {
    hide IsWordChar, IsWord;
    var syntax := new byte[256](i => 0);
    for a: int := 'a' as int to 'z' as int + 1
      invariant forall c: byte :: syntax[c] == if 'a' as int <= c < a then 1 else 0
    {
      syntax[a] := S_WORD;
    }
    for a: int := 'A' as int to 'Z' as int + 1
      invariant forall c: byte :: syntax[c] == if 'a' as int <= c <= 'z' as int || 'A' as int <= c < a then 1 else 0
    {
      syntax[a] := S_WORD;
    }
    ghost var letters := syntax[..];
    for a: int := '0' as int to '9' as int + 1
      invariant forall c: byte :: syntax[c] == if '0' as int <= c < a then 1 else letters[c]
    {
      syntax[a] := S_WORD;
    }
    forall c: byte ensures syntax[c] == SyntaxOf(c) == if IsWordChar(c as char) then 1 else 0 {
      CharIs(c as char);
      SyntaxIs(c);
    }
    return syntax[..];
  }
}
