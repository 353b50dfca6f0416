/** The server's configuration-file parser: a lexer that takes, at each
    point, the longest match among its rules (earlier rules winning ties),
    and the grammar of a list of `key value` pairs whose values are words,
    quoted strings or bracketed nested lists. The result is an object from
    keys to strings and nested objects; a later pair with the same key
    overrides an earlier one. */
module ConfigParser {
  import opened Wrappers
  import opened Text

  datatype Token = LBracket | RBracket | SimpleWord(text: string) | Word(text: string) | Quoted(text: string)

  predicate IsLetter(c: char) { 'a' <= c <= 'z' || 'A' <= c <= 'Z' }

  /** `\w`. */
  predicate IsWordChar(c: char) { IsLetter(c) || IsDigit(c) || c == '_' }

  /** The characters of the `WORD` rule: `\w`, `:`, `\`, `/`, `.` and `-`. */
  predicate IsPathChar(c: char) {
    IsWordChar(c) || c == ':' || c == '\\' || c == '/' || c == '.' || c == '-'
  }

  /** The characters a regular expression's `.` does not match. */
  predicate IsLineTerminator(c: char) { c == '\n' || c == '\r' || c == '\U{2028}' || c == '\U{2029}' }

  /** A lexeme of the `SIMPLE_WORD` rule: a letter, then `\w`s. */
  predicate IsSimpleWord(w: string) {
    |w| > 0 && IsLetter(w[0]) && forall i :: 0 <= i < |w| ==> IsWordChar(w[i])
  }

  predicate AllPathChars(w: string) { forall i :: 0 <= i < |w| ==> IsPathChar(w[i]) }

  /** The tokens the lexer can produce: a `WORD` token is exactly a run of
      path characters that is not also a `SIMPLE_WORD` lexeme, and a quoted
      string holds no `"` and no newline. */
  predicate WellFormed(t: Token) {
    match t
    case LBracket => true
    case RBracket => true
    case SimpleWord(w) => IsSimpleWord(w)
    case Word(w) => w != [] && AllPathChars(w) && !IsSimpleWord(w)
    case Quoted(w) => forall i :: 0 <= i < |w| ==> w[i] != '"' && w[i] != '\n'
  }

  /** The length of the run of path characters that starts `s`. */
  function PathRun(s: string): (n: nat)
    ensures n <= |s|
    ensures forall i :: 0 <= i < n ==> IsPathChar(s[i])
    ensures n < |s| ==> !IsPathChar(s[n])
  {
    if s != [] && IsPathChar(s[0]) then 1 + PathRun(s[1..]) else 0
  }

  /** The length of what `#.*` matches after its `#`: up to the first line
      terminator. */
  function LineLength(s: string): (n: nat)
    ensures n <= |s|
    ensures forall i :: 0 <= i < n ==> !IsLineTerminator(s[i])
    ensures n < |s| ==> IsLineTerminator(s[n])
  {
    if s != [] && !IsLineTerminator(s[0]) then 1 + LineLength(s[1..]) else 0
  }

  /** No `"` and no newline in `s` before index `k`. */
  predicate QuoteFree(s: string, k: int)
    requires 0 <= k <= |s|
  {
    forall j :: 0 <= j < k ==> s[j] != '"' && s[j] != '\n'
  }

  /** Where `"[^"\n]*"` closes, given what follows the opening quote: the
      index of the first `"` when no newline comes before it, else -1. */
  function QuoteEnd(s: string): (i: int)
    ensures -1 <= i < |s|
    ensures i >= 0 ==> s[i] == '"' && QuoteFree(s, i)
    ensures i < 0 ==> forall k :: 0 <= k < |s| && QuoteFree(s, k) ==> s[k] != '"'
  {
    if s == [] || s[0] == '\n' then -1
    else if s[0] == '"' then 0
    else
      var k := QuoteEnd(s[1..]);
      assert forall j :: 1 <= j <= |s| ==> QuoteFree(s, j) == QuoteFree(s[1..], j - 1);
      if k < 0 then -1 else k + 1
  }

  /** The token of a maximal run of path characters: `SIMPLE_WORD` when the
      run is one of its lexemes (the tie goes to the earlier rule), else
      `WORD`, whose lexeme is then the longer. */
  function WordToken(w: string): (t: Token)
    requires w != [] && AllPathChars(w)
    ensures WellFormed(t) && (t.SimpleWord? || t.Word?) && t.text == w
  {
    if IsSimpleWord(w) then SimpleWord(w) else Word(w)
  }

  function Prepend(t: Token, r: Option<seq<Token>>): Option<seq<Token>> {
    if r.None? then None else Some([t] + r.value)
  }

  /** The lexer: whitespace and comments give no token, a character that
      starts no rule, or a quote that does not close on its line, is an
      error. A comment's line terminator is whitespace, which is skipped
      next. */
  function Lex(s: string): (r: Option<seq<Token>>)
    ensures r.Some? ==> forall t :: t in r.value ==> WellFormed(t)
    decreases |s|
  {
    if s == [] then Some([])
    else if IsJsWhitespace(s[0]) then Lex(s[1..])
    else if s[0] == '#' then Lex(s[1 + LineLength(s[1..])..])
    else if s[0] == '[' then Prepend(LBracket, Lex(s[1..]))
    else if s[0] == ']' then Prepend(RBracket, Lex(s[1..]))
    else if IsPathChar(s[0]) then
      var n := PathRun(s);
      Prepend(WordToken(s[..n]), Lex(s[n..]))
    else if s[0] == '"' then
      var q := QuoteEnd(s[1..]);
      if q < 0 then None else Prepend(Quoted(s[1..q + 1]), Lex(s[q + 2..]))
    else None
  }

  /** A configuration value: a string or a nested object. */
  datatype Value = Str(s: string) | Dict(entries: map<string, Value>)

  /** `a` is what is left of `b` after at least one token. */
  predicate ShorterSuffix(a: seq<Token>, b: seq<Token>) {
    |a| < |b| && a == b[|b| - |a|..]
  }

  lemma SuffixTrans(a: seq<Token>, b: seq<Token>, c: seq<Token>)
    requires ShorterSuffix(a, b) && ShorterSuffix(b, c)
    ensures ShorterSuffix(a, c)
  {
    assert c[|c| - |b|..][|b| - |a|..] == c[|c| - |a|..];
  }

  lemma SuffixOfTail(a: seq<Token>, b: seq<Token>)
    requires b != [] && ShorterSuffix(a, b[1..])
    ensures ShorterSuffix(a, b)
  {
    assert b[1..][|b| - 1 - |a|..] == b[|b| - |a|..];
  }

  /** `value`: a word, a quoted string, `[ ]` or `[ key_value_list ]`;
      returns the value and the tokens after it. */
  function ParseValue(ts: seq<Token>): (r: Option<(Value, seq<Token>)>)
    ensures r.Some? ==> ShorterSuffix(r.value.1, ts)
    decreases |ts|
  {
    if ts == [] then None
    else match ts[0]
      case SimpleWord(w) => Some((Str(w), ts[1..]))
      case Word(w) => Some((Str(w), ts[1..]))
      case Quoted(w) => Some((Str(w), ts[1..]))
      case RBracket => None
      case LBracket =>
        if |ts| >= 2 && ts[1] == RBracket then Some((Dict(map[]), ts[2..]))
        else
          match ParseList(ts[1..])
          case None => None
          case Some((m, rest)) =>
            if rest != [] && rest[0] == RBracket then
              SuffixOfTail(rest, ts);
              SuffixTrans(rest[1..], rest, ts);
              Some((Dict(m), rest[1..]))
            else None
  }

  /** `key_value_list`: one or more `key value` pairs, a key being a
      `SIMPLE_WORD`; the list goes on while a `SIMPLE_WORD` follows, and a
      later pair's key overrides an earlier one's. Returns the object and
      the tokens after the list, which never start with a `SIMPLE_WORD`. */
  function ParseList(ts: seq<Token>): (r: Option<(map<string, Value>, seq<Token>)>)
    ensures r.Some? ==> ShorterSuffix(r.value.1, ts)
    ensures r.Some? ==> |r.value.0| > 0
    ensures r.Some? ==> r.value.1 == [] || !r.value.1[0].SimpleWord?
    decreases |ts|
  {
    if ts == [] || !ts[0].SimpleWord? then None
    else
      match ParseValue(ts[1..])
      case None => None
      case Some((v, rest)) =>
        SuffixOfTail(rest, ts);
        if rest != [] && rest[0].SimpleWord? then
          match ParseList(rest)
          case None => None
          case Some((m, rest2)) =>
            SuffixTrans(rest2, rest, ts);
            Some((map[ts[0].text := v] + m, rest2))
        else Some((map[ts[0].text := v], rest))
  }

  /** `config`: the whole input is one `key_value_list`, then the end. */
  function DoParse(input: string): (r: Option<map<string, Value>>)
    ensures r.Some? ==> |r.value| > 0
  {
    match Lex(input)
    case None => None
    case Some(ts) =>
      match ParseList(ts)
      case None => None
      case Some((m, rest)) => if rest == [] then Some(m) else None
  }

  // ---- The lexer, rule by rule ----

  lemma {:induction false} PathRunOf(w: string, rest: string)
    requires AllPathChars(w)
    requires rest == [] || !IsPathChar(rest[0])
    ensures PathRun(w + rest) == |w|
  {
    if w != [] {
      assert (w + rest)[1..] == w[1..] + rest;
      PathRunOf(w[1..], rest);
    }
  }

  lemma {:induction false} LineLengthOf(c: string, rest: string)
    requires forall i :: 0 <= i < |c| ==> !IsLineTerminator(c[i])
    requires rest == [] || IsLineTerminator(rest[0])
    ensures LineLength(c + rest) == |c|
  {
    if c != [] {
      assert (c + rest)[1..] == c[1..] + rest;
      LineLengthOf(c[1..], rest);
    }
  }

  lemma {:induction false} QuoteEndOf(w: string, rest: string)
    requires forall i :: 0 <= i < |w| ==> w[i] != '"' && w[i] != '\n'
    ensures QuoteEnd(w + "\"" + rest) == |w|
  {
    if w != [] {
      assert (w + "\"" + rest)[1..] == w[1..] + "\"" + rest;
      QuoteEndOf(w[1..], rest);
    }
  }

  /** A run of path characters ended by a character that cannot continue
      it is one word token. */
  lemma LexWord(w: string, rest: string)
    requires w != [] && AllPathChars(w)
    requires rest == [] || !IsPathChar(rest[0])
    ensures Lex(w + rest) == Prepend(WordToken(w), Lex(rest))
  {
    var s := w + rest;
    PathRunOf(w, rest);
    assert s[..|w|] == w && s[|w|..] == rest;
    assert s[0] == w[0];
  }

  /** A comment runs to the end of its line and yields nothing. */
  lemma LexComment(c: string, rest: string)
    requires forall i :: 0 <= i < |c| ==> !IsLineTerminator(c[i])
    requires rest == [] || IsLineTerminator(rest[0])
    ensures Lex("#" + c + rest) == Lex(rest)
  {
    var s := "#" + c + rest;
    assert s[1..] == c + rest;
    LineLengthOf(c, rest);
    assert s[1 + |c|..] == rest;
  }

  /** A quoted string closed on its line is one token without its quotes. */
  lemma LexQuoted(w: string, rest: string)
    requires forall i :: 0 <= i < |w| ==> w[i] != '"' && w[i] != '\n'
    ensures Lex("\"" + w + "\"" + rest) == Prepend(Quoted(w), Lex(rest))
  {
    var s := "\"" + w + "\"" + rest;
    assert s[1..] == w + "\"" + rest;
    QuoteEndOf(w, rest);
    assert s[1..|w| + 1] == w && s[|w| + 2..] == rest;
  }

  /** A quote with no closing quote before the next newline is an error. */
  lemma {:induction false} QuoteEndNone(w: string, rest: string)
    requires forall i :: 0 <= i < |w| ==> w[i] != '"' && w[i] != '\n'
    requires rest == [] || rest[0] == '\n'
    ensures QuoteEnd(w + rest) < 0
  {
    if w != [] {
      assert (w + rest)[1..] == w[1..] + rest;
      QuoteEndNone(w[1..], rest);
    } else {
      assert w + rest == rest;
    }
  }

  lemma UnclosedQuoteFails(w: string, rest: string)
    requires forall i :: 0 <= i < |w| ==> w[i] != '"' && w[i] != '\n'
    requires rest == [] || rest[0] == '\n'
    ensures Lex("\"" + w + rest) == None
  {
    var s := "\"" + w + rest;
    assert s[1..] == w + rest;
    QuoteEndNone(w, rest);
    assert s[0] == '"';
  }

  /** Whitespace yields nothing. */
  lemma {:induction false} LexSpace(ws: string, rest: string)
    requires forall i :: 0 <= i < |ws| ==> IsJsWhitespace(ws[i])
    ensures Lex(ws + rest) == Lex(rest)
  {
    if ws != [] {
      assert (ws + rest)[0] == ws[0];
      assert (ws + rest)[1..] == ws[1..] + rest;
      LexSpace(ws[1..], rest);
    } else {
      assert ws + rest == rest;
    }
  }

  /** A character that starts no rule is an error. */
  lemma LexRejects(s: string)
    requires s != [] && !IsJsWhitespace(s[0]) && !IsPathChar(s[0])
    requires s[0] !in {'#', '[', ']', '"'}
    ensures Lex(s) == None
  {
  }

  // ---- Printing tokens, and lexing what was printed ----

  function TokenText(t: Token): (s: string)
    ensures |s| > 0
  {
    match t
    case LBracket => "["
    case RBracket => "]"
    case SimpleWord(w) => if w == [] then " " else w
    case Word(w) => if w == [] then " " else w
    case Quoted(w) => "\"" + w + "\""
  }

  /** The tokens written out, each followed by a space. */
  function EmitTokens(ts: seq<Token>): (s: string)
    ensures |s| >= 2 * |ts|
  {
    if ts == [] then "" else TokenText(ts[0]) + " " + EmitTokens(ts[1..])
  }

  lemma LexOneSpace(rest: string)
    ensures Lex(" " + rest) == Lex(rest)
  {
    assert (" " + rest)[1..] == rest;
  }

  lemma LexBracket(c: char, rest: string)
    requires c == '[' || c == ']'
    ensures Lex([c] + rest) == Prepend(if c == '[' then LBracket else RBracket, Lex(rest))
  {
    assert ([c] + rest)[1..] == rest;
  }

  lemma LexToken(t: Token, rest: string)
    requires WellFormed(t)
    ensures Lex(TokenText(t) + " " + rest) == Prepend(t, Lex(rest))
  {
    var r := " " + rest;
    LexOneSpace(rest);
    assert TokenText(t) + " " + rest == TokenText(t) + r;
    match t
    case LBracket =>
      LexBracket('[', r);
      assert TokenText(t) == ['['];
    case RBracket =>
      LexBracket(']', r);
      assert TokenText(t) == [']'];
    case SimpleWord(w) =>
      LexWord(w, r);
    case Word(w) =>
      LexWord(w, r);
    case Quoted(w) =>
      LexQuoted(w, r);
      assert TokenText(t) + r == "\"" + w + "\"" + r;
  }

  /** Lexing the printed tokens gives them back: every token the lexer can
      produce has a text that lexes to it alone. */
  lemma {:induction false} LexEmit(ts: seq<Token>)
    requires forall t :: t in ts ==> WellFormed(t)
    ensures Lex(EmitTokens(ts)) == Some(ts)
  {
    if ts != [] {
      LexEmit(ts[1..]);
      LexToken(ts[0], EmitTokens(ts[1..]));
      assert [ts[0]] + ts[1..] == ts;
    }
  }

  // ---- The grammar ----

  /** Only lexed tokens reach the parser, so every key is a `SIMPLE_WORD`
      lexeme. */
  lemma {:induction false} ListKeys(ts: seq<Token>)
    requires forall t :: t in ts ==> WellFormed(t)
    ensures ParseList(ts).Some? ==> forall k :: k in ParseList(ts).value.0 ==> IsSimpleWord(k)
    decreases |ts|
  {
    if ParseList(ts).Some? && ParseValue(ts[1..]).Some? {
      assert WellFormed(ts[0]);
      var rest := ParseValue(ts[1..]).value.1;
      if rest != [] && rest[0].SimpleWord? {
        assert forall t :: t in rest ==> t in ts by {
          assert rest == ts[|ts| - |rest|..];
        }
        ListKeys(rest);
      }
    }
  }

  /** Every key of a parsed configuration is a `SIMPLE_WORD` lexeme. */
  lemma ConfigKeys(input: string)
    ensures DoParse(input).Some? ==> forall k :: k in DoParse(input).value ==> IsSimpleWord(k)
  {
    if Lex(input).Some? {
      ListKeys(Lex(input).value);
    }
  }

  lemma LexSingleWord(w: string)
    requires w != [] && AllPathChars(w)
    ensures Lex(w) == Some([WordToken(w)])
  {
    LexWord(w, "");
    assert w + "" == w;
    assert Lex("") == Some([]);
    assert [WordToken(w)] + [] == [WordToken(w)];
  }

  /** A lone key has no value. */
  lemma LoneKeyFails(w: string)
    requires IsSimpleWord(w)
    ensures DoParse(w) == None
  {
    LexSingleWord(w);
  }

  /** A key written with a following comment, `key# #value#`, still has no
      value: the comment takes the rest of the line. */
  lemma KeyThenCommentFails(w: string, c: string)
    requires IsSimpleWord(w)
    requires forall i :: 0 <= i < |c| ==> !IsLineTerminator(c[i])
    ensures DoParse(w + "#" + c) == None
  {
    LexComment(c, "");
    assert "#" + c + "" == "#" + c;
    assert Lex("#" + c) == Some([]);
    LexWord(w, "#" + c);
    assert w + ("#" + c) == w + "#" + c;
  }

  /** A key that starts with a digit is never a key. */
  lemma DigitKeyFails(input: string)
    requires input != [] && IsDigit(input[0])
    ensures DoParse(input) == None
  {
    var n := PathRun(input);
    assert 0 < n && input[..n][0] == input[0];
    assert WordToken(input[..n]).Word?;
    assert Lex(input) == Prepend(WordToken(input[..n]), Lex(input[n..]));
  }

  predicate Scalar(t: Token) { t.SimpleWord? || t.Word? || t.Quoted? }

  /** The tokens are one list, with nothing after it. */
  predicate Complete(ts: seq<Token>) {
    ParseList(ts).Some? && ParseList(ts).value.1 == []
  }

  /** Every token at an even index is a `SIMPLE_WORD`. */
  predicate KeysAtEven(ts: seq<Token>) {
    forall i :: 0 <= i < |ts| && i % 2 == 0 ==> ts[i].SimpleWord?
  }

  lemma KeysAtEvenStep(ts: seq<Token>)
    requires |ts| >= 2
    ensures KeysAtEven(ts) <==> ts[0].SimpleWord? && KeysAtEven(ts[2..])
  {
    var tail := ts[2..];
    assert forall i :: 2 <= i < |ts| ==> ts[i] == tail[i - 2];
    if ts[0].SimpleWord? && KeysAtEven(tail) {
      forall i | 2 <= i < |ts| && i % 2 == 0
        ensures ts[i].SimpleWord?
      {
        assert tail[i - 2].SimpleWord?;
      }
    }
  }

  lemma CompleteStep(ts: seq<Token>)
    requires |ts| >= 2 && ts[0].SimpleWord? && Scalar(ts[1])
    ensures Complete(ts) <==> ts[2..] == [] || (ts[2].SimpleWord? && Complete(ts[2..]))
  {
    assert ParseValue(ts[1..]) == Some((Str(ts[1].text), ts[2..]));
  }

  /** A list of words and quoted strings parses completely exactly when it
      is an even, nonempty run of pairs whose every key is a `SIMPLE_WORD`:
      `key space value` does not. */
  lemma {:induction false} FlatList(ts: seq<Token>)
    requires forall i :: 0 <= i < |ts| ==> Scalar(ts[i])
    ensures Complete(ts) <==> |ts| > 0 && |ts| % 2 == 0 && KeysAtEven(ts)
    decreases |ts|
  {
    if |ts| >= 2 {
      var rest := ts[2..];
      KeysAtEvenStep(ts);
      assert |ts| % 2 == |rest| % 2;
      if !ts[0].SimpleWord? {
        assert !Complete(ts);
      } else {
        CompleteStep(ts);
        if rest == [] {
          assert KeysAtEven(rest);
        } else {
          assert forall i :: 0 <= i < |rest| ==> Scalar(rest[i]) by {
            assert forall i :: 0 <= i < |rest| ==> rest[i] == ts[i + 2];
          }
          FlatList(rest);
          assert KeysAtEven(rest) ==> rest[0].SimpleWord?;
        }
      }
    } else if |ts| == 1 {
      assert ts[1..] == [];
      assert ParseValue(ts[1..]) == None;
      assert !Complete(ts);
    } else {
      assert !Complete(ts);
    }
  }

  /** The input fails exactly when it does not lex, or its tokens are not
      one complete list. */
  lemma ParseFailsUnlessComplete(input: string)
    ensures DoParse(input).None? <==> Lex(input).None? || !Complete(Lex(input).value)
  {
  }

  lemma LexThreeWords(a: string, b: string, c: string)
    requires IsSimpleWord(a) && IsSimpleWord(b) && IsSimpleWord(c)
    ensures Lex(a + " " + b + " " + c) == Some([SimpleWord(a), SimpleWord(b), SimpleWord(c)])
  {
    LexSingleWord(c);
    LexToken(SimpleWord(b), c);
    assert TokenText(SimpleWord(b)) == b;
    assert WordToken(c) == SimpleWord(c);
    assert [SimpleWord(b)] + [SimpleWord(c)] == [SimpleWord(b), SimpleWord(c)];
    assert Lex(b + " " + c) == Some([SimpleWord(b), SimpleWord(c)]);
    LexToken(SimpleWord(a), b + " " + c);
    assert TokenText(SimpleWord(a)) == a;
    Regroup5(a, " ", b, " ", c);
    assert [SimpleWord(a)] + [SimpleWord(b), SimpleWord(c)] == [SimpleWord(a), SimpleWord(b), SimpleWord(c)];
  }

  /** `key space value`: three words on a line are a pair and a key with
      no value. */
  lemma ThreeWordsFail(a: string, b: string, c: string)
    requires IsSimpleWord(a) && IsSimpleWord(b) && IsSimpleWord(c)
    ensures DoParse(a + " " + b + " " + c) == None
  {
    var ts := [SimpleWord(a), SimpleWord(b), SimpleWord(c)];
    LexThreeWords(a, b, c);
    FlatList(ts);
    ParseFailsUnlessComplete(a + " " + b + " " + c);
  }

  /** `"key space" value`: a quoted string is never a key. */
  lemma QuotedKeyFails(w: string, rest: string)
    requires forall i :: 0 <= i < |w| ==> w[i] != '"' && w[i] != '\n'
    ensures DoParse("\"" + w + "\"" + rest) == None
  {
    LexQuoted(w, rest);
  }

  /** `value#comment`: a comment directly after a word ends the word and
      takes the rest of the line. */
  lemma LexWordThenComment(w: string, c: string, rest: string)
    requires w != [] && AllPathChars(w)
    requires forall i :: 0 <= i < |c| ==> !IsLineTerminator(c[i])
    requires rest == [] || IsLineTerminator(rest[0])
    ensures Lex(w + "#" + c + rest) == Prepend(WordToken(w), Lex(rest))
  {
    var t := "#" + c + rest;
    LexComment(c, rest);
    assert t[0] == '#';
    LexWord(w, t);
    Regroup3(w, "#", c, rest);
  }

  /** `key [ key ]`: an array holding only a key fails. */
  lemma ArrayOfLoneKeyFails(k: string, k2: string)
    ensures ParseList([SimpleWord(k), LBracket, SimpleWord(k2), RBracket]) == None
  {
    var ts := [SimpleWord(k), LBracket, SimpleWord(k2), RBracket];
    assert ParseList([SimpleWord(k2), RBracket]) == None by {
      assert ParseValue([RBracket]) == None;
    }
    assert ts[1..][1..] == [SimpleWord(k2), RBracket];
  }

  // ---- Configurations written from a syntax tree ----

  /** A configuration as written: pairs of a key and a word or an array of
      pairs. */
  datatype Item = Item(key: string, value: Syntax)
  datatype Syntax = Leaf(token: Token) | Array(items: seq<Item>)

  predicate WellFormedSyntax(v: Syntax)
    decreases v
  {
    match v
    case Leaf(t) => Scalar(t) && WellFormed(t)
    case Array(items) => WellFormedItems(items)
  }

  predicate WellFormedItems(items: seq<Item>)
    decreases items
  {
    items == [] || (IsSimpleWord(items[0].key) && WellFormedSyntax(items[0].value) && WellFormedItems(items[1..]))
  }

  function EmitSyntax(v: Syntax): (ts: seq<Token>)
    ensures |ts| > 0
    decreases v
  {
    match v
    case Leaf(t) => [t]
    case Array(items) => [LBracket] + EmitItems(items) + [RBracket]
  }

  function EmitItems(items: seq<Item>): (ts: seq<Token>)
    ensures |ts| >= 2 * |items|
    decreases items
  {
    if items == [] then [] else [SimpleWord(items[0].key)] + EmitSyntax(items[0].value) + EmitItems(items[1..])
  }

  /** The configuration file of the pairs. */
  function Render(items: seq<Item>): string {
    EmitTokens(EmitItems(items))
  }

  /** What a written value means: a leaf's text, or the object of an
      array's pairs. */
  function ValueOf(v: Syntax): Value
    decreases v
  {
    match v
    case Leaf(t) => if Scalar(t) then Str(t.text) else Str("")
    case Array(items) => Dict(MapOf(items))
  }

  /** The object of the pairs, a later pair overriding an earlier one. */
  function MapOf(items: seq<Item>): map<string, Value>
    decreases items
  {
    if items == [] then map[] else map[items[0].key := ValueOf(items[0].value)] + MapOf(items[1..])
  }

  /** `j` is the last pair with key `k`. */
  ghost predicate LastWith(items: seq<Item>, j: int, k: string) {
    0 <= j < |items| && items[j].key == k && forall i :: j < i < |items| ==> items[i].key != k
  }

  /** The object has exactly the keys of the pairs, each with the value of
      the last pair that has it. */
  lemma {:induction false} MapOfLastWins(items: seq<Item>, k: string)
    ensures k in MapOf(items) <==> exists j :: 0 <= j < |items| && items[j].key == k
    ensures forall j :: LastWith(items, j, k) ==> k in MapOf(items) && MapOf(items)[k] == ValueOf(items[j].value)
  {
    if items != [] {
      MapOfLastWins(items[1..], k);
      var tail := items[1..];
      assert forall j :: 1 <= j < |items| ==> items[j] == tail[j - 1];
      forall j | LastWith(items, j, k)
        ensures k in MapOf(items) && MapOf(items)[k] == ValueOf(items[j].value)
      {
        if j > 0 {
          assert LastWith(tail, j - 1, k);
        }
      }
    }
  }

  lemma Regroup<T>(a: seq<T>, b: seq<T>, c: seq<T>, d: seq<T>)
    ensures a + b + c + d == a + (b + (c + d))
  {
  }

  lemma Regroup3<T>(a: seq<T>, b: seq<T>, c: seq<T>, d: seq<T>)
    ensures a + b + c + d == a + (b + c + d)
  {
  }

  lemma Regroup5<T>(a: seq<T>, b: seq<T>, c: seq<T>, d: seq<T>, e: seq<T>)
    ensures a + b + c + d + e == a + b + (c + d + e)
  {
  }

  lemma ValueLeaf(t: Token, rest: seq<Token>)
    requires Scalar(t)
    ensures ParseValue([t] + rest) == Some((Str(t.text), rest))
  {
    assert ([t] + rest)[1..] == rest;
  }

  lemma ValueEmptyArray(rest: seq<Token>)
    ensures ParseValue([LBracket, RBracket] + rest) == Some((Dict(map[]), rest))
  {
    assert ([LBracket, RBracket] + rest)[2..] == rest;
  }

  lemma ValueArray(ts: seq<Token>, m: map<string, Value>, rest: seq<Token>)
    requires ts != [] && ts[0].SimpleWord?
    requires ParseList(ts) == Some((m, [RBracket] + rest))
    ensures ParseValue([LBracket] + ts) == Some((Dict(m), rest))
  {
    assert ([LBracket] + ts)[1..] == ts;
    assert ([RBracket] + rest)[1..] == rest;
  }

  lemma ListLast(k: string, ts: seq<Token>, v: Value, after: seq<Token>)
    requires ParseValue(ts) == Some((v, after))
    requires after == [] || !after[0].SimpleWord?
    ensures ParseList([SimpleWord(k)] + ts) == Some((map[k := v], after))
  {
    assert ([SimpleWord(k)] + ts)[1..] == ts;
  }

  lemma ListMore(k: string, ts: seq<Token>, v: Value, after: seq<Token>, m: map<string, Value>, r: seq<Token>)
    requires ParseValue(ts) == Some((v, after))
    requires after != [] && after[0].SimpleWord?
    requires ParseList(after) == Some((m, r))
    ensures ParseList([SimpleWord(k)] + ts) == Some((map[k := v] + m, r))
  {
    assert ([SimpleWord(k)] + ts)[1..] == ts;
  }

  lemma {:induction false} ParseEmitSyntax(v: Syntax, rest: seq<Token>)
    requires WellFormedSyntax(v)
    ensures ParseValue(EmitSyntax(v) + rest) == Some((ValueOf(v), rest))
    decreases v, 0
  {
    if v.Leaf? {
      assert EmitSyntax(v) == [v.token];
      ValueLeaf(v.token, rest);
    } else {
      ParseEmitArray(v.items, rest);
    }
  }

  lemma {:induction false} ParseEmitArray(items: seq<Item>, rest: seq<Token>)
    requires WellFormedItems(items)
    ensures ParseValue(EmitSyntax(Array(items)) + rest) == Some((Dict(MapOf(items)), rest))
    decreases items, 1
  {
    var e := EmitSyntax(Array(items));
    if items == [] {
      assert EmitItems(items) == [];
      assert e + rest == [LBracket, RBracket] + rest;
      ValueEmptyArray(rest);
    } else {
      var inner := EmitItems(items);
      ParseEmitItems(items, [RBracket] + rest);
      Regroup([LBracket], inner, [RBracket], rest);
      ValueArray(inner + ([RBracket] + rest), MapOf(items), rest);
    }
  }

  /** Parsing the written pairs gives their object and stops at what
      follows them. */
  lemma {:induction false} ParseEmitItems(items: seq<Item>, rest: seq<Token>)
    requires items != [] && WellFormedItems(items)
    requires rest == [] || !rest[0].SimpleWord?
    ensures ParseList(EmitItems(items) + rest) == Some((MapOf(items), rest))
    decreases items, 0
  {
    var k, v, tail := items[0].key, items[0].value, items[1..];
    var after := EmitItems(tail) + rest;
    assert EmitItems(items) == [SimpleWord(k)] + EmitSyntax(v) + EmitItems(tail);
    Regroup([SimpleWord(k)], EmitSyntax(v), EmitItems(tail), rest);
    ParseEmitSyntax(v, after);
    if tail != [] {
      ParseEmitItems(tail, rest);
      ListMore(k, EmitSyntax(v) + after, ValueOf(v), after, MapOf(tail), rest);
    } else {
      assert after == rest;
      ListLast(k, EmitSyntax(v) + after, ValueOf(v), after);
      assert map[k := ValueOf(v)] + map[] == map[k := ValueOf(v)];
    }
  }

  lemma {:induction false} EmitSyntaxWellFormed(v: Syntax)
    requires WellFormedSyntax(v)
    ensures forall t :: t in EmitSyntax(v) ==> WellFormed(t)
    decreases v
  {
    match v
    case Leaf(_) =>
    case Array(items) => EmitItemsWellFormed(items);
  }

  lemma {:induction false} EmitItemsWellFormed(items: seq<Item>)
    requires WellFormedItems(items)
    ensures forall t :: t in EmitItems(items) ==> WellFormed(t)
    decreases items
  {
    if items != [] {
      EmitSyntaxWellFormed(items[0].value);
      EmitItemsWellFormed(items[1..]);
    }
  }

  /** A configuration file written from pairs parses to their object: keys
      and `SIMPLE_WORD` values, `WORD` values such as addresses and paths,
      quoted strings, `[ ]` and nested arrays, several pairs on a line, and
      a repeated key taking its last value. */
  lemma ConfigRoundTrip(items: seq<Item>)
    requires items != [] && WellFormedItems(items)
    ensures DoParse(Render(items)) == Some(MapOf(items))
  {
    EmitItemsWellFormed(items);
    LexEmit(EmitItems(items));
    ParseEmitItems(items, []);
    assert EmitItems(items) + [] == EmitItems(items);
  }

  /** Input that holds no token, only whitespace and comments, fails. */
  lemma EmptyConfigFails(input: string)
    requires Lex(input) == Some([])
    ensures DoParse(input) == None
  {
  }
}
