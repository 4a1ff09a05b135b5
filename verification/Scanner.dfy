/** The scanner of src/scanner.c: a cursor over a text that ends in NUL. */
module Scanner {

  datatype TokenType =
    | LeftParen | RightParen | LeftBrace | RightBrace | LeftBracket | RightBracket
    | Comma | Dot | Minus | Plus | Semicolon | Slash | Star
    | Bang | BangEqual | Equal | EqualEqual | Greater | GreaterEqual | Less | LessEqual
    | Identifier | String | Number
    | And | Class | Else | False | For | Fun | If | Nil | Or | Print | Return | Super | This | True
    | Var | Const | While
    | Error | Eof

  /** A token with the part of the text that was consumed for it. */
  datatype Token = Token(kind: TokenType, start: nat, end: nat, line: nat)

  const NUL := '\0'

  predicate IsAlpha(c: char) {
    'a' <= c <= 'z' || 'A' <= c <= 'Z' || c == '_'
  }

  predicate IsDigit(c: char) {
    '0' <= c <= '9'
  }

  // ----- keywords -----

  function CheckKeyword(lexeme: string, start: nat, length: nat, rest: string, kind: TokenType): TokenType
    requires |rest| == length
  {
    if |lexeme| == start + length && lexeme[start..start + length] == rest then kind else Identifier
  }

  /** The trie of identifierType. */
  function IdentifierType(lexeme: string): TokenType
    requires lexeme != []
  {
    match lexeme[0]
    case 'a' => CheckKeyword(lexeme, 1, 2, "nd", And)
    case 'c' =>
      if |lexeme| > 1 && lexeme[1] == 'l' then CheckKeyword(lexeme, 2, 3, "ass", Class)
      else if |lexeme| > 1 && lexeme[1] == 'o' then CheckKeyword(lexeme, 2, 3, "nst", Const)
      else Identifier
    case 'e' => CheckKeyword(lexeme, 1, 3, "lse", Else)
    case 'f' =>
      if |lexeme| > 1 && lexeme[1] == 'a' then CheckKeyword(lexeme, 2, 3, "lse", False)
      else if |lexeme| > 1 && lexeme[1] == 'o' then CheckKeyword(lexeme, 2, 1, "r", For)
      else if |lexeme| > 1 && lexeme[1] == 'u' then CheckKeyword(lexeme, 2, 1, "n", Fun)
      else Identifier
    case 'i' => CheckKeyword(lexeme, 1, 1, "f", If)
    case 'n' => CheckKeyword(lexeme, 1, 2, "il", Nil)
    case 'o' => CheckKeyword(lexeme, 1, 1, "r", Or)
    case 'p' => CheckKeyword(lexeme, 1, 4, "rint", Print)
    case 'r' => CheckKeyword(lexeme, 1, 5, "eturn", Return)
    case 's' => CheckKeyword(lexeme, 1, 4, "uper", Super)
    case 't' =>
      if |lexeme| > 1 && lexeme[1] == 'h' then CheckKeyword(lexeme, 2, 2, "is", This)
      else if |lexeme| > 1 && lexeme[1] == 'r' then CheckKeyword(lexeme, 2, 2, "ue", True)
      else Identifier
    case 'v' => CheckKeyword(lexeme, 1, 2, "ar", Var)
    case 'w' => CheckKeyword(lexeme, 1, 4, "hile", While)
    case _ => Identifier
  }

  /** The reserved words. */
  function Keyword(lexeme: string): (r: TokenType)
    ensures r != Eof
  {
    if lexeme == "and" then And
    else if lexeme == "class" then Class
    else if lexeme == "const" then Const
    else if lexeme == "else" then Else
    else if lexeme == "false" then False
    else if lexeme == "for" then For
    else if lexeme == "fun" then Fun
    else if lexeme == "if" then If
    else if lexeme == "nil" then Nil
    else if lexeme == "or" then Or
    else if lexeme == "print" then Print
    else if lexeme == "return" then Return
    else if lexeme == "super" then Super
    else if lexeme == "this" then This
    else if lexeme == "true" then True
    else if lexeme == "var" then Var
    else if lexeme == "while" then While
    else Identifier
  }

  lemma CheckIsEquality(lexeme: string, first: string, rest: string, kind: TokenType)
    requires |lexeme| >= |first| && lexeme[..|first|] == first
    ensures CheckKeyword(lexeme, |first|, |rest|, rest, kind) == if lexeme == first + rest then kind else Identifier
  {
    assert lexeme == first + lexeme[|first|..];
  }

  lemma TrieAOrE(lexeme: string)
    requires lexeme != [] && (lexeme[0] == 'a' || lexeme[0] == 'e')
    ensures IdentifierType(lexeme) == Keyword(lexeme)
  {
    hide CheckKeyword;
    match lexeme[0]
    case 'a' => CheckIsEquality(lexeme, "a", "nd", And);
    case 'e' => CheckIsEquality(lexeme, "e", "lse", Else);
    case _ =>
  }

  lemma TrieC(lexeme: string)
    requires lexeme != [] && lexeme[0] == 'c'
    ensures IdentifierType(lexeme) == Keyword(lexeme)
  {
    hide CheckKeyword;
    var two := if |lexeme| > 1 then lexeme[..2] else lexeme;
    if two == "cl" { CheckIsEquality(lexeme, "cl", "ass", Class); }
    if two == "co" { CheckIsEquality(lexeme, "co", "nst", Const); }
  }

  lemma TrieF(lexeme: string)
    requires lexeme != [] && lexeme[0] == 'f'
    ensures IdentifierType(lexeme) == Keyword(lexeme)
  {
    hide CheckKeyword;
    var two := if |lexeme| > 1 then lexeme[..2] else lexeme;
    if two == "fa" { CheckIsEquality(lexeme, "fa", "lse", False); }
    if two == "fo" { CheckIsEquality(lexeme, "fo", "r", For); }
    if two == "fu" { CheckIsEquality(lexeme, "fu", "n", Fun); }
  }

  lemma TrieIToO(lexeme: string)
    requires lexeme != [] && (lexeme[0] == 'i' || lexeme[0] == 'n' || lexeme[0] == 'o')
    ensures IdentifierType(lexeme) == Keyword(lexeme)
  {
    hide CheckKeyword;
    var two := if |lexeme| > 1 then lexeme[..2] else lexeme;
    match lexeme[0]
    case 'i' => CheckIsEquality(lexeme, "i", "f", If);
    case 'n' => CheckIsEquality(lexeme, "n", "il", Nil);
    case 'o' => CheckIsEquality(lexeme, "o", "r", Or);
    case _ =>
  }

  lemma TriePToS(lexeme: string)
    requires lexeme != [] && (lexeme[0] == 'p' || lexeme[0] == 'r' || lexeme[0] == 's')
    ensures IdentifierType(lexeme) == Keyword(lexeme)
  {
    hide CheckKeyword;
    var two := if |lexeme| > 1 then lexeme[..2] else lexeme;
    match lexeme[0]
    case 'p' => CheckIsEquality(lexeme, "p", "rint", Print);
    case 'r' => CheckIsEquality(lexeme, "r", "eturn", Return);
    case 's' => CheckIsEquality(lexeme, "s", "uper", Super);
    case _ =>
  }

  lemma TrieT(lexeme: string)
    requires lexeme != [] && (lexeme[0] == 't')
    ensures IdentifierType(lexeme) == Keyword(lexeme)
  {
    hide CheckKeyword;
    var two := if |lexeme| > 1 then lexeme[..2] else lexeme;
    match lexeme[0]
    case 't' =>
      if two == "th" { CheckIsEquality(lexeme, "th", "is", This); }
      if two == "tr" { CheckIsEquality(lexeme, "tr", "ue", True); }
    case _ =>
  }

  lemma TrieVToW(lexeme: string)
    requires lexeme != [] && (lexeme[0] == 'v' || lexeme[0] == 'w')
    ensures IdentifierType(lexeme) == Keyword(lexeme)
  {
    hide CheckKeyword;
    var two := if |lexeme| > 1 then lexeme[..2] else lexeme;
    match lexeme[0]
    case 'v' => CheckIsEquality(lexeme, "v", "ar", Var);
    case 'w' => CheckIsEquality(lexeme, "w", "hile", While);
    case _ =>
  }

  /** The trie accepts exactly the reserved words. */
  lemma TrieIsKeywords(lexeme: string)
    requires lexeme != []
    ensures IdentifierType(lexeme) == Keyword(lexeme)
  {
    hide CheckKeyword;
    match lexeme[0]
    case 'a' | 'e' => TrieAOrE(lexeme);
    case 'c' => TrieC(lexeme);
    case 'f' => TrieF(lexeme);
    case 'i' | 'n' | 'o' => TrieIToO(lexeme);
    case 'p' | 'r' | 's' => TriePToS(lexeme);
    case 't' => TrieT(lexeme);
    case 'v' | 'w' => TrieVToW(lexeme);
    case _ =>
  }

  // ----- what is between and in tokens -----

  function Newlines(s: string): nat {
    if s == [] then 0 else Newlines(s[..|s| - 1]) + if s[|s| - 1] == '\n' then 1 else 0
  }

  lemma NewlinesMore(s: string, i: nat)
    requires i < |s|
    ensures Newlines(s[..i + 1]) == Newlines(s[..i]) + if s[i] == '\n' then 1 else 0
  {
    assert s[..i + 1][..i] == s[..i];
  }

  predicate IsSpace(c: char) {
    c == ' ' || c == '\r' || c == '\t' || c == '\n'
  }

  predicate StartsComment(text: string, i: nat) {
    i + 1 < |text| && text[i] == '/' && text[i + 1] == '/'
  }

  /** A comment from i up to but not including j: to the end of its line. */
  ghost predicate IsComment(text: string, i: nat, j: nat) {
    && StartsComment(text, i) && i + 2 <= j <= |text|
    && (forall k :: i <= k < j ==> text[k] != '\n')
    && (j < |text| ==> text[j] == '\n')
  }

  /** Nothing but white space and comments from i to j. */
  ghost predicate Blank(text: string, i: nat, j: nat)
    decreases j - i
  {
    || i == j
    || (i < j <= |text| && IsSpace(text[i]) && Blank(text, i + 1, j))
    || (exists k :: i < k <= j && IsComment(text, i, k) && Blank(text, k, j))
  }

  lemma {:induction false} BlankThen(text: string, i: nat, j: nat, k: nat)
    requires i <= j <= k && Blank(text, i, j) && Blank(text, j, k)
    ensures Blank(text, i, k)
    decreases j - i
  {
    if i == j {
    } else if i < j <= |text| && IsSpace(text[i]) && Blank(text, i + 1, j) {
      BlankThen(text, i + 1, j, k);
    } else {
      var m :| i < m <= j && IsComment(text, i, m) && Blank(text, m, j);
      BlankThen(text, m, j, k);
    }
  }

  /** No more can be skipped at i. */
  predicate Solid(text: string, i: nat) {
    i >= |text| || (!IsSpace(text[i]) && !StartsComment(text, i))
  }

  predicate AllDigits(s: string) {
    forall i :: 0 <= i < |s| ==> IsDigit(s[i])
  }

  /** The longest number: digits, and a fraction if at least one digit follows the dot. */
  ghost predicate IsNumber(text: string, i: nat, j: nat) {
    && i < j <= |text|
    && (j < |text| ==> !IsDigit(text[j]))
    && ((AllDigits(text[i..j]) && !(j + 1 < |text| && text[j] == '.' && IsDigit(text[j + 1])))
        || exists k :: i < k < j - 1 && text[k] == '.' && AllDigits(text[i..k]) && AllDigits(text[k + 1..j]))
  }

  predicate IsWordChar(c: char) {
    IsAlpha(c) || IsDigit(c)
  }

  ghost predicate IsWord(text: string, i: nat, j: nat) {
    && i < j <= |text| && IsAlpha(text[i])
    && (forall k :: i <= k < j ==> IsWordChar(text[k]))
    && (j < |text| ==> !IsWordChar(text[j]))
  }

  ghost predicate IsString(text: string, i: nat, j: nat) {
    && i + 2 <= j <= |text| && text[i] == '"' && text[j - 1] == '"'
    && forall k :: i < k < j - 1 ==> text[k] != '"'
  }

  function Punctuation(c: char): TokenType {
    match c
    case '(' => LeftParen
    case ')' => RightParen
    case '{' => LeftBrace
    case '}' => RightBrace
    case '[' => LeftBracket
    case ']' => RightBracket
    case ';' => Semicolon
    case ',' => Comma
    case '.' => Dot
    case '-' => Minus
    case '+' => Plus
    case '/' => Slash
    case '*' => Star
    case _ => Error
  }

  /** An operator that may be followed by an equals sign. */
  function Operator(c: char, equal: bool): TokenType {
    match c
    case '!' => if equal then BangEqual else Bang
    case '=' => if equal then EqualEqual else Equal
    case '<' => if equal then LessEqual else Less
    case '>' => if equal then GreaterEqual else Greater
    case _ => Error
  }

  /** What the grammar of tokens says about a token. */
  ghost predicate Lexed(text: string, t: Token)
    requires t.start <= t.end <= |text|
  {
    var c := if t.start < |text| then text[t.start] else NUL;
    if t.start == |text| then t.kind == Eof && t.end == t.start
    else if IsAlpha(c) then IsWord(text, t.start, t.end) && t.kind == Keyword(text[t.start..t.end])
    else if IsDigit(c) then IsNumber(text, t.start, t.end) && t.kind == Number
    else if c == '"' then
      || (t.kind == String && IsString(text, t.start, t.end))
      || (t.kind == Error && t.end == |text| && forall k :: t.start < k < |text| ==> text[k] != '"')
    else if Operator(c, false) != Error then
      var equal := t.start + 1 < |text| && text[t.start + 1] == '=';
      t.kind == Operator(c, equal) && t.end == t.start + if equal then 2 else 1
    else t.kind == Punctuation(c) && t.end == t.start + 1
  }

  function Word(kind: TokenType): string {
    match kind
    case And => "and" case Class => "class" case Else => "else" case False => "false"
    case For => "for" case Fun => "fun" case If => "if" case Nil => "nil"
    case Or => "or" case Print => "print" case Return => "return" case Super => "super"
    case This => "this" case True => "true" case Var => "var" case Const => "const" case While => "while"
    case _ => ""
  }

  function Sign(kind: TokenType): string {
    match kind
    case LeftParen => "(" case RightParen => ")"
    case LeftBrace => "{" case RightBrace => "}"
    case LeftBracket => "[" case RightBracket => "]"
    case Comma => "," case Dot => "." case Semicolon => ";"
    case Minus => "-" case Plus => "+" case Slash => "/" case Star => "*"
    case Bang => "!" case BangEqual => "!="
    case Equal => "=" case EqualEqual => "=="
    case Greater => ">" case GreaterEqual => ">="
    case Less => "<" case LessEqual => "<="
    case _ => ""
  }

  /** The text of every kind of token that has only one. */
  function Spelling(kind: TokenType): string {
    Word(kind) + Sign(kind)
  }

  /** A token of such a kind has that text. */
  lemma LexemeIsSpelling(text: string, t: Token)
    requires t.start <= t.end <= |text| && Lexed(text, t) && Spelling(t.kind) != ""
    ensures text[t.start..t.end] == Spelling(t.kind)
  {
    hide IsWord, IsNumber, IsString, Word, Sign, Keyword;
    NoSpelling();
    var c := text[t.start];
    if IsAlpha(c) {
      KeywordIsSpelt(text[t.start..t.end]);
    } else if !IsDigit(c) && c != '"' {
      SignIsSpelt(text, t, c);
    }
  }

  lemma NoSpelling()
    ensures Word(Identifier) == Sign(Identifier) == Word(Number) == Sign(Number) == Word(String) == Sign(String) == ""
    ensures Word(Error) == Sign(Error) == Word(Eof) == Sign(Eof) == ""
  {
  }

  lemma KeywordIsSpelt(lexeme: string)
    ensures Keyword(lexeme) != Identifier ==> Word(Keyword(lexeme)) == lexeme && Sign(Keyword(lexeme)) == ""
  {
    hide Keyword, Word, Sign;
    if Keyword(lexeme) != Identifier {
      if |lexeme| <= 3 {
        ShortKeyword(lexeme);
      } else {
        LongKeyword(lexeme);
      }
    }
  }

  lemma ShortKeyword(lexeme: string)
    requires |lexeme| <= 3 && Keyword(lexeme) != Identifier
    ensures Word(Keyword(lexeme)) == lexeme && Sign(Keyword(lexeme)) == ""
  {
  }

  lemma LongKeyword(lexeme: string)
    requires |lexeme| > 3 && Keyword(lexeme) != Identifier
    ensures Word(Keyword(lexeme)) == lexeme && Sign(Keyword(lexeme)) == ""
  {
  }

  lemma SignIsSpelt(text: string, t: Token, c: char)
    requires t.start < t.end <= |text| && Lexed(text, t) && c == text[t.start]
    requires !IsAlpha(c) && !IsDigit(c) && c != '"' && t.kind != Error
    ensures Sign(t.kind) == text[t.start..t.end] && Word(t.kind) == ""
    ensures t.end == t.start + 2 <==> c in "!=<>" && t.start + 1 < |text| && text[t.start + 1] == '='
  {
    hide IsWord, IsNumber, IsString, IsAlpha, IsDigit;
    if Operator(c, false) != Error && t.end == t.start + 2 {
      assert text[t.start..t.end] == [c, '='];
    } else {
      assert text[t.start..t.end] == [c];
    }
  }

  /** Every sign is a token, so nothing else than its kind can be meant. */
  lemma SignsAreTokens(text: string, t: Token)
    requires t.start < t.end <= |text| && Lexed(text, t) && text[t.start] in "(){}[],.;-+/*!=<>"
    ensures t.kind != Error && Spelling(t.kind) == text[t.start..t.end]
  {
    hide IsWord, IsNumber, IsString, Word, Sign;
    SignIsSpelt(text, t, text[t.start]);
  }

  /** Every reserved word is read as its own kind. */
  lemma WordIsReserved(kind: TokenType)
    requires Word(kind) != ""
    ensures Keyword(Word(kind)) == kind && kind != Identifier
  {
    hide Keyword;
    TrieIsKeywords(Word(kind));
  }

  /** A word that is not reserved is an identifier: a letter or an underscore, and then letters,
      digits and underscores as far as they go. */
  lemma IdentifierShape(text: string, t: Token)
    requires t.start <= t.end <= |text| && Lexed(text, t) && t.kind == Identifier
    ensures t.start < t.end && Letter(text[t.start])
    ensures forall k :: t.start <= k < t.end ==> Letter(text[k]) || '0' <= text[k] <= '9'
    ensures t.end < |text| ==> !Letter(text[t.end]) && !('0' <= text[t.end] <= '9')
    ensures forall kind :: Word(kind) != text[t.start..t.end]
  {
    hide IsNumber, IsString, Word, Keyword;
    forall kind
      ensures Word(kind) != text[t.start..t.end]
    {
      if Word(kind) == text[t.start..t.end] {
        WordIsReserved(kind);
      }
    }
  }

  /** The first character decides what kind of token it is. */
  lemma FirstCharacter(text: string, t: Token)
    requires t.start < t.end <= |text| && Lexed(text, t)
    ensures Letter(text[t.start]) ==> t.kind == Identifier || Word(t.kind) != ""
    ensures '0' <= text[t.start] <= '9' <==> t.kind == Number
    ensures text[t.start] == '"' ==> t.kind == String || t.kind == Error
  {
    hide IsWord, IsString, IsNumber, Keyword, Word;
    if Letter(text[t.start]) {
      KeywordIsSpelt(text[t.start..t.end]);
      NotNumber(text[t.start..t.end]);
    }
  }

  lemma NotNumber(lexeme: string)
    ensures Keyword(lexeme) != Number
    ensures Keyword(lexeme) != Identifier && lexeme != "" ==> Word(Keyword(lexeme)) != ""
  {
    hide Word;
    KeywordIsSpelt(lexeme);
  }

  /** A number: digits as far as they go, with one dot between digits at most. */
  lemma NumberShape(text: string, t: Token)
    requires t.start < t.end <= |text| && Lexed(text, t) && t.kind == Number
    ensures '0' <= text[t.start] <= '9' && '0' <= text[t.end - 1] <= '9'
    ensures forall k :: t.start <= k < t.end ==> '0' <= text[k] <= '9' || text[k] == '.'
    ensures forall k, m :: t.start <= k < m < t.end && text[k] == '.' ==> text[m] != '.'
    ensures t.end < |text| ==> !('0' <= text[t.end] <= '9')
  {
    hide IsWord, IsString, IsNumber, Keyword;
    FirstCharacter(text, t);
    NumberText(text, t.start, t.end);
  }

  lemma NumberText(text: string, i: nat, j: nat)
    requires IsNumber(text, i, j)
    ensures '0' <= text[i] <= '9' && '0' <= text[j - 1] <= '9' && (j < |text| ==> !('0' <= text[j] <= '9'))
    ensures forall m :: i <= m < j ==> '0' <= text[m] <= '9' || text[m] == '.'
    ensures forall k, m :: i <= k < m < j && text[k] == '.' ==> text[m] != '.'
  {
    if AllDigits(text[i..j]) {
      DigitsAt(text, i, j);
    } else {
      var k :| i < k < j - 1 && text[k] == '.' && AllDigits(text[i..k]) && AllDigits(text[k + 1..j]);
      DigitsAt(text, i, k);
      DigitsAt(text, k + 1, j);
    }
  }

  lemma DigitsAt(text: string, i: nat, j: nat)
    requires i <= j <= |text| && AllDigits(text[i..j])
    ensures forall m :: i <= m < j ==> '0' <= text[m] <= '9'
  {
    forall m | i <= m < j
      ensures '0' <= text[m] <= '9'
    {
      assert IsDigit(text[i..j][m - i]);
    }
  }

  predicate Letter(c: char) {
    'a' <= c <= 'z' || 'A' <= c <= 'Z' || c == '_'
  }

  class Scanner {
    const text: string
    var start: nat
    var current: nat
    var line: nat

    ghost predicate Valid()
      reads this
    {
      current <= |text| && NUL !in text && line == 1 + Newlines(text[..current])
    }

    constructor (text: string)
      requires NUL !in text
      ensures Valid() && this.text == text && current == 0
    {
      this.text := text;
      start, current, line := 0, 0, 1;
    }

    predicate IsAtEnd()
      reads this
    {
      current >= |text|
    }

    function Peek(): char
      reads this
    {
      if current < |text| then text[current] else NUL
    }

    function PeekNext(): char
      reads this
    {
      if current + 1 < |text| then text[current + 1] else NUL
    }

    /** Past a character that does not end a line, or does and is counted. */
    method Advance() returns (c: char)
      requires current < |text|
      modifies this`current
      ensures current == old(current) + 1 && c == text[old(current)]
    {
      current := current + 1;
      c := text[current - 1];
    }

    method Match(expected: char) returns (found: bool)
      requires Valid() && expected != '\n' && expected != NUL
      modifies this`current
      ensures Valid() && found == (old(Peek()) == expected) && current == old(current) + if found then 1 else 0
    {
      if IsAtEnd() || text[current] != expected {
        return false;
      }
      NewlinesMore(text, current);
      current := current + 1;
      found := true;
    }

    method SkipWhitespaces()
      requires Valid()
      modifies this`current, this`line
      ensures Valid() && old(current) <= current
      ensures Blank(text, old(current), current) && Solid(text, current)
    {
      while true
        invariant Valid() && old(current) <= current && Blank(text, old(current), current)
        decreases |text| - current
      {
        var c := Peek();
        ghost var i := current;
        if c == ' ' || c == '\r' || c == '\t' || c == '\n' {
          NewlinesMore(text, current);
          if c == '\n' {
            line := line + 1;
          }
          var _ := Advance();
        } else if c == '/' && PeekNext() == '/' {
          SkipComment();
        } else {
          return;
        }
        assert Blank(text, i, current);
        BlankThen(text, old(current), i, current);
      }
    }

    method SkipComment()
      requires Valid() && StartsComment(text, current)
      modifies this`current
      ensures Valid() && IsComment(text, old(current), current)
    {
      while Peek() != '\n' && !IsAtEnd()
        invariant Valid() && old(current) <= current
        invariant forall k :: old(current) <= k < current ==> text[k] != '\n'
        decreases |text| - current
      {
        NewlinesMore(text, current);
        var _ := Advance();
      }
    }

    /** Consumes digits while there are any. */
    method Digits()
      requires Valid()
      modifies this`current
      ensures Valid() && old(current) <= current && AllDigits(text[old(current)..current])
      ensures current < |text| ==> !IsDigit(text[current])
    {
      while IsDigit(Peek())
        invariant Valid() && old(current) <= current
        invariant forall k :: old(current) <= k < current ==> IsDigit(text[k])
        decreases |text| - current
      {
        NewlinesMore(text, current);
        var _ := Advance();
      }
    }

    /** The first digit has been consumed. */
    method NumberToken() returns (t: Token)
      requires Valid() && current == start + 1 && IsDigit(text[start])
      modifies this`current
      ensures Valid() && t == Token(Number, start, current, line) && IsNumber(text, start, current)
    {
      Digits();
      assert AllDigits(text[start..current]);
      if Peek() == '.' && IsDigit(PeekNext()) {
        ghost var dot := current;
        NewlinesMore(text, current);
        var _ := Advance();
        Digits();
        assert AllDigits(text[start..dot]) && AllDigits(text[dot + 1..current]);
      }
      t := Token(Number, start, current, line);
    }

    method IdentifierToken() returns (t: Token)
      requires Valid() && current == start + 1 && IsAlpha(text[start])
      modifies this`current
      ensures Valid() && IsWord(text, start, current) && t == Token(Keyword(text[start..current]), start, current, line)
    {
      while IsAlpha(Peek()) || IsDigit(Peek())
        invariant Valid() && start < current
        invariant forall k :: start <= k < current ==> IsWordChar(text[k])
        decreases |text| - current
      {
        NewlinesMore(text, current);
        var _ := Advance();
      }
      TrieIsKeywords(text[start..current]);
      t := Token(IdentifierType(text[start..current]), start, current, line);
    }

    method StringToken() returns (t: Token)
      requires Valid() && current == start + 1 && text[start] == '"'
      modifies this`current, this`line
      ensures Valid() && start < current && t.start == start && t.end == current && t.line == line
      ensures (t.kind == String && IsString(text, start, current))
        || (t.kind == Error && current == |text| && forall k :: start < k < |text| ==> text[k] != '"')
    {
      while Peek() != '"' && !IsAtEnd()
        invariant Valid() && start < current
        invariant forall k :: start < k < current ==> text[k] != '"'
        decreases |text| - current
      {
        NewlinesMore(text, current);
        if Peek() == '\n' {
          line := line + 1;
        }
        var _ := Advance();
      }
      if IsAtEnd() {
        return Token(Error, start, current, line);
      }
      NewlinesMore(text, current);
      var _ := Advance();
      t := Token(String, start, current, line);
    }

    /** The next token: white space and comments are skipped, then one token is consumed.
        At the end the answer is Eof, again and again. */
    method ScanToken() returns (t: Token)
      requires Valid()
      modifies this
      ensures Valid() && old(current) <= t.start <= t.end == current && t.line == line
      ensures Blank(text, old(current), t.start) && Solid(text, t.start)
      ensures Lexed(text, t)
      ensures t.kind == Eof <==> t.start == |text|
      ensures t.kind != Eof ==> t.start < t.end
    {
      hide Blank, Newlines, Keyword, IsWord, IsNumber, IsString, IsComment;
      SkipWhitespaces();
      start := current;
      if IsAtEnd() {
        return Token(Eof, start, current, line);
      }
      NewlinesMore(text, current);
      var c := Advance();
      if IsAlpha(c) {
        t := IdentifierToken();
      } else if IsDigit(c) {
        t := NumberToken();
      } else if c == '"' {
        t := StringToken();
      } else if Operator(c, false) != Error {
        var equal := Match('=');
        t := Token(Operator(c, equal), start, current, line);
      } else {
        t := Token(Punctuation(c), start, current, line);
      }
    }
  }

  /** The tokens of a text, up to and with the end. */
  ghost predicate Tiles(text: string, ts: seq<Token>, from: nat, to: nat) {
    && (forall i :: 0 <= i < |ts| ==> ts[i].start <= ts[i].end <= |text|)
    && (forall i :: 0 <= i < |ts| ==>
          Blank(text, if i == 0 then from else ts[i - 1].end, ts[i].start) && Lexed(text, ts[i]))
    && to == if ts == [] then from else ts[|ts| - 1].end
  }

  /** Scanning to the end: the tokens and the blanks between them are the whole text, in order,
      and every token has the line on which it ends. */
  method ScanAll(text: string) returns (ts: seq<Token>)
    requires NUL !in text
    ensures Tiles(text, ts, 0, |text|) && ts != [] && ts[|ts| - 1].kind == Eof
    ensures forall i :: 0 <= i < |ts| - 1 ==> ts[i].kind != Eof && ts[i].start < ts[i].end
    ensures forall i :: 0 <= i < |ts| ==> ts[i].end <= |text| && ts[i].line == 1 + Newlines(text[..ts[i].end])
  {
    hide Lexed, Blank, Newlines;
    var scanner := new Scanner(text);
    ts := [];
    while true
      invariant fresh(scanner) && scanner.Valid() && scanner.text == text
      invariant Tiles(text, ts, 0, scanner.current)
      invariant forall i :: 0 <= i < |ts| ==> ts[i].kind != Eof && ts[i].start < ts[i].end
      invariant forall i :: 0 <= i < |ts| ==> ts[i].end <= |text| && ts[i].line == 1 + Newlines(text[..ts[i].end])
      decreases |text| - scanner.current
    {
      var t := scanner.ScanToken();
      ts := ts + [t];
      if t.kind == Eof {
        return;
      }
    }
  }
}
