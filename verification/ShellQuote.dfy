/**
The command line of the read endpoint, and how a shell reads it: quoting and
token recognition by sections 2.2 and 2.3 of the POSIX.1-2017 Shell Command Language.
*/
module ShellQuote {
  import opened Text
  import opened Wrappers

  // The shell

  /** `bare`: some character of the word is not quoted. */
  datatype Token = Word(text: string, bare: bool) | Operator(op: string)

  datatype Mode =
    | Between
    | InWord(text: string, bare: bool)
    | InSingle(text: string, bare: bool)
    | InDouble(text: string, bare: bool)
    | Escaping(text: string, bare: bool, begun: bool)
    | EscapingInDouble(text: string, bare: bool)
    | InOperator(op: string)
    | InComment

  datatype Reader = Reader(tokens: seq<Token>, mode: Mode)

  predicate StartsOperator(c: char) {
    c == '&' || c == '|' || c == ';' || c == '<' || c == '>' || c == '(' || c == ')' || c == '\n'
  }

  /** Whether the character makes a longer operator of `op`: && || ;; << >> <& <> >& >| and <<-. */
  predicate ExtendsOperator(op: string, c: char) {
    || (|op| == 1 && c == op[0] && (c == '&' || c == '|' || c == ';' || c == '<' || c == '>'))
    || (|op| == 1 && op[0] == '<' && (c == '&' || c == '>'))
    || (|op| == 1 && op[0] == '>' && (c == '&' || c == '|'))
    || (|op| == 2 && op[0] == '<' && op[1] == '<' && c == '-')
  }

  /** The operators of more than one character, sections 2.7 and 2.10.2. */
  const LONG_OPERATORS := ["&&", "||", ";;", "<<", ">>", "<&", "<>", ">&", ">|", "<<-"]

  lemma ExtendsExactly(op: string, c: char)
    requires op != ""
    ensures ExtendsOperator(op, c) <==> op + [c] in LONG_OPERATORS
  {
    var longer := op + [c];
    assert longer[..|op|] == op && longer[|op|] == c;
    if |op| == 1 {
      assert longer == [op[0], c];
    } else if |op| == 2 {
      assert longer == [op[0], op[1], c];
    }
  }

  predicate IsBlank(c: char) { c == ' ' || c == '\t' }

  /** A character that starts or continues a word; expansions are not tokens, so there is no reading of them here. */
  function WordChar(tokens: seq<Token>, text: string, bare: bool, begun: bool, c: char): Option<Reader> {
    if c == '\'' then Some(Reader(tokens, InSingle(text, bare)))
    else if c == '"' then Some(Reader(tokens, InDouble(text, bare)))
    else if c == '\\' then Some(Reader(tokens, Escaping(text, bare, begun)))
    else if c == '$' || c == '`' then None
    else Some(Reader(tokens, InWord(text + [c], true)))
  }

  function Start(tokens: seq<Token>, c: char): Option<Reader> {
    if IsBlank(c) then Some(Reader(tokens, Between))
    else if c == '#' then Some(Reader(tokens, InComment))
    else if StartsOperator(c) then Some(Reader(tokens, InOperator([c])))
    else WordChar(tokens, "", false, false, c)
  }

  function Step(r: Reader, c: char): Option<Reader> {
    match r.mode
    case Between => Start(r.tokens, c)
    case InWord(text, bare) =>
      if IsBlank(c) then Some(Reader(r.tokens + [Word(text, bare)], Between))
      else if StartsOperator(c) then Some(Reader(r.tokens + [Word(text, bare)], InOperator([c])))
      else WordChar(r.tokens, text, bare, true, c)
    case InSingle(text, bare) =>
      Some(Reader(r.tokens, if c == '\'' then InWord(text, bare) else InSingle(text + [c], bare)))
    case InDouble(text, bare) =>
      if c == '"' then Some(Reader(r.tokens, InWord(text, bare)))
      else if c == '\\' then Some(Reader(r.tokens, EscapingInDouble(text, bare)))
      else if c == '$' || c == '`' then None
      else Some(Reader(r.tokens, InDouble(text + [c], bare)))
    case Escaping(text, bare, begun) =>
      if c != '\n' then Some(Reader(r.tokens, InWord(text + [c], bare)))
      else Some(Reader(r.tokens, if begun then InWord(text, bare) else Between))
    case EscapingInDouble(text, bare) =>
      if c == '\n' then Some(Reader(r.tokens, InDouble(text, bare)))
      else if c in "$`\"\\" then Some(Reader(r.tokens, InDouble(text + [c], bare)))
      else Some(Reader(r.tokens, InDouble(text + ['\\', c], bare)))
    case InOperator(op) =>
      if ExtendsOperator(op, c) then Some(Reader(r.tokens, InOperator(op + [c])))
      else Start(r.tokens + [Operator(op)], c)
    case InComment =>
      Some(Reader(r.tokens, if c == '\n' then InOperator("\n") else InComment))
  }

  function ReadAll(r: Reader, s: string): Option<Reader>
    decreases s
  {
    if s == "" then Some(r)
    else
      match Step(r, s[0])
      case None => None
      case Some(next) => ReadAll(next, s[1..])
  }

  /** The tokens of a command line; none if it ends inside quotes or has an expansion. */
  function Tokens(s: string): Option<seq<Token>> {
    match ReadAll(Reader([], Between), s)
    case None => None
    case Some(r) =>
      match r.mode
      case Between => Some(r.tokens)
      case InComment => Some(r.tokens)
      case InWord(text, bare) => Some(r.tokens + [Word(text, bare)])
      case InOperator(op) => Some(r.tokens + [Operator(op)])
      case _ => None
  }

  lemma {:induction false} ReadOn(r: Reader, a: string, b: string)
    requires ReadAll(r, a).Some?
    ensures ReadAll(r, a + b) == ReadAll(ReadAll(r, a).value, b)
    decreases a
  {
    if a == "" {
      assert a + b == b;
    } else {
      assert (a + b)[1..] == a[1..] + b;
      ReadOn(Step(r, a[0]).value, a[1..], b);
    }
  }

  lemma ReadOne(r: Reader, c: char, next: Reader, s: string)
    requires Step(r, c) == Some(next)
    ensures ReadAll(r, [c] + s) == ReadAll(next, s)
  {
  }

  // The quoting

  /** strings.ReplaceAll of each single quote: close the quotes, a quote in double quotes, open them again. */
  function Escaped(value: string): string {
    if value == "" then ""
    else (if value[0] == '\'' then "'\"'\"'" else [value[0]]) + Escaped(value[1..])
  }

  function ShQuote(value: string): string {
    "'" + Escaped(value) + "'"
  }

  lemma ReadEscapedQuote(tokens: seq<Token>, text: string, bare: bool)
    ensures ReadAll(Reader(tokens, InSingle(text, bare)), "'\"'\"'") == Some(Reader(tokens, InSingle(text + "'", bare)))
  {
  }

  lemma {:induction false} ReadEscaped(tokens: seq<Token>, text: string, bare: bool, value: string)
    ensures ReadAll(Reader(tokens, InSingle(text, bare)), Escaped(value)) == Some(Reader(tokens, InSingle(text + value, bare)))
    decreases value
  {
    if value == "" {
      assert text + value == text;
    } else {
      var r := Reader(tokens, InSingle(text, bare));
      var first := if value[0] == '\'' then "'\"'\"'" else [value[0]];
      assert ReadAll(r, first) == Some(Reader(tokens, InSingle(text + [value[0]], bare))) by {
        if value[0] == '\'' { ReadEscapedQuote(tokens, text, bare); }
      }
      ReadOn(r, first, Escaped(value[1..]));
      ReadEscaped(tokens, text + [value[0]], bare, value[1..]);
      assert text + [value[0]] + value[1..] == text + value;
    }
  }

  /** A quoted value reads as one word, every character of it quoted, and it is the value. */
  lemma QuotedReadsBack(tokens: seq<Token>, value: string)
    ensures ReadAll(Reader(tokens, Between), ShQuote(value)) == Some(Reader(tokens, InWord(value, false)))
  {
    var r0 := Reader(tokens, Between);
    var r1 := Reader(tokens, InSingle("", false));
    assert Step(r0, '\'') == Some(r1);
    assert ReadAll(r0, "'") == Some(r1);
    ReadEscaped(tokens, "", false, value);
    assert "" + value == value;
    ReadOn(r1, Escaped(value), "'");
    ReadOn(r0, "'", Escaped(value) + "'");
    assert "'" + (Escaped(value) + "'") == ShQuote(value);
  }

  // What need not be quoted

  /** Blanks, quotes, expansions and the first characters of the operators. */
  predicate Active(c: char) {
    c in " \t\n&|;<>()'\"\\$`"
  }

  /** The length of the words so far, with the backslash that may yet turn out to be one of their characters. */
  function WordLength(r: Reader): nat {
    TokenLength(r.tokens) +
    match r.mode
    case InWord(text, _) => |text|
    case InSingle(text, _) => |text|
    case InDouble(text, _) => |text|
    case Escaping(text, _, _) => |text|
    case EscapingInDouble(text, _) => |text| + 1
    case _ => 0
  }

  function TokenLength(tokens: seq<Token>): nat {
    if tokens == [] then 0
    else
      var last := tokens[|tokens| - 1];
      TokenLength(tokens[..|tokens| - 1]) + if last.Word? then |last.text| else 0
  }

  lemma OneMoreToken(tokens: seq<Token>, token: Token)
    ensures TokenLength(tokens + [token]) == TokenLength(tokens) + if token.Word? then |token.text| else 0
  {
    assert (tokens + [token])[..|tokens|] == tokens;
  }

  /** A character adds one to the words at most, and nothing where it is active. */
  lemma StepAdds(r: Reader, c: char)
    requires Step(r, c).Some?
    ensures WordLength(Step(r, c).value) <= WordLength(r) + 1
    ensures (r.mode.InWord? && Active(c)) || (r.mode.Between? && (Active(c) || c == '#')) ==>
              WordLength(Step(r, c).value) <= WordLength(r)
  {
    match r.mode
    case InWord(text, bare) =>
      if IsBlank(c) || StartsOperator(c) { OneMoreToken(r.tokens, Word(text, bare)); }
    case InOperator(op) =>
      if !ExtendsOperator(op, c) { OneMoreToken(r.tokens, Operator(op)); }
    case _ =>
  }

  lemma {:induction false} ReadAdds(r: Reader, s: string)
    requires ReadAll(r, s).Some?
    ensures WordLength(ReadAll(r, s).value) <= WordLength(r) + |s|
    decreases s
  {
    if s != "" {
      StepAdds(r, s[0]);
      ReadAdds(Step(r, s[0]).value, s[1..]);
    }
  }

  predicate Inert(s: string) {
    forall i :: 0 <= i < |s| ==> !Active(s[i])
  }

  lemma {:induction false} ReadInert(tokens: seq<Token>, text: string, s: string)
    requires Inert(s)
    ensures ReadAll(Reader(tokens, InWord(text, true)), s) == Some(Reader(tokens, InWord(text + s, true)))
    decreases s
  {
    if s == "" {
      assert text + s == text;
    } else {
      assert text + s == text + [s[0]] + s[1..];
      ReadInert(tokens, text + [s[0]], s[1..]);
    }
  }

  /** The first active character leaves the word shorter than the line. */
  lemma {:induction false} ActiveShows(text: string, s: string)
    requires !Inert(s)
    ensures var r := ReadAll(Reader([], InWord(text, true)), s); r.Some? ==> WordLength(r.value) < |text| + |s|
    decreases s
  {
    var r := Reader([], InWord(text, true));
    if Active(s[0]) {
      if Step(r, s[0]).Some? {
        StepAdds(r, s[0]);
        if ReadAll(Step(r, s[0]).value, s[1..]).Some? {
          ReadAdds(Step(r, s[0]).value, s[1..]);
        }
      }
    } else {
      ActiveShows(text + [s[0]], s[1..]);
    }
  }

  lemma OnlyToken(tokens: seq<Token>, token: Token, value: string)
    requires tokens + [token] == [Word(value, true)]
    ensures tokens == [] && token == Word(value, true)
  {
    assert (tokens + [token])[|tokens|] == token;
  }

  lemma OneWordLength(value: string)
    ensures TokenLength([Word(value, true)]) == |value|
  {
    OneMoreToken([], Word(value, true));
    assert [] + [Word(value, true)] == [Word(value, true)];
  }

  lemma WholeWordLength(r: Reader, value: string)
    requires Tokens(value) == Some([Word(value, true)]) && ReadAll(Reader([], Between), value) == Some(r)
    ensures WordLength(r) == |value|
  {
    OneWordLength(value);
    match r.mode
    case InWord(text, bare) => OnlyToken(r.tokens, Word(text, bare), value);
    case InOperator(op) => OnlyToken(r.tokens, Operator(op), value);
    case _ =>
  }

  /** Without quotes a value reads back as one word if and only if none of its characters is active and it starts no comment. */
  lemma BareReadsBack(value: string)
    requires value != ""
    ensures Tokens(value) == Some([Word(value, true)]) <==> Inert(value) && value[0] != '#'
  {
    var start, c, rest := Reader([], Between), value[0], value[1..];
    assert value == [c] + rest && "" + [c] == [c];
    if Active(c) || c == '#' {
      if ReadAll(start, value).Some? {
        StepAdds(start, c);
        ReadAdds(Step(start, c).value, rest);
        if Tokens(value) == Some([Word(value, true)]) {
          WholeWordLength(ReadAll(start, value).value, value);
        }
      }
    } else if Inert(rest) {
      ReadFirst([], value);
      assert [] + [Word(value, true)] == [Word(value, true)];
    } else {
      ActiveShows([c], rest);
      if Tokens(value) == Some([Word(value, true)]) {
        WholeWordLength(ReadAll(start, value).value, value);
      }
    }
  }

  /** An operator character that is not quoted ends one word and begins the next. */
  lemma OperatorSplits(a: string, c: char, b: string)
    requires a != "" && Inert(a) && a[0] != '#' && b != "" && Inert(b) && b[0] != '#' && StartsOperator(c)
    ensures Tokens(a + [c] + b) == Some([Word(a, true), Operator([c]), Word(b, true)])
  {
    var word := [Word(a, true)];
    ReadFirst([], a);
    assert [] + word == word;
    ReadOne(Reader([], InWord(a, true)), c, Reader(word, InOperator([c])), b);
    ReadAfterOperator(word, c, b);
    ReadOn(Reader([], Between), a, [c] + b);
    assert a + ([c] + b) == a + [c] + b;
    assert word + [Operator([c])] + [Word(b, true)] == [Word(a, true), Operator([c]), Word(b, true)];
  }

  lemma ReadAfterOperator(tokens: seq<Token>, c: char, s: string)
    requires s != "" && Inert(s) && s[0] != '#' && StartsOperator(c)
    ensures ReadAll(Reader(tokens, InOperator([c])), s) == Some(Reader(tokens + [Operator([c])], InWord(s, true)))
  {
    var r := Reader(tokens + [Operator([c])], InWord([s[0]], true));
    assert s == [s[0]] + s[1..] && "" + [s[0]] == [s[0]];
    NoLongOperator(c, s[0]);
    ReadOne(Reader(tokens, InOperator([c])), s[0], r, s[1..]);
    ReadInert(r.tokens, [s[0]], s[1..]);
  }

  lemma NoLongOperator(c: char, next: char)
    requires !Active(next)
    ensures !ExtendsOperator([c], next)
  {
  }

  lemma ReadFirst(tokens: seq<Token>, s: string)
    requires s != "" && Inert(s) && s[0] != '#'
    ensures ReadAll(Reader(tokens, Between), s) == Some(Reader(tokens, InWord(s, true)))
  {
    assert s == [s[0]] + s[1..] && "" + [s[0]] == [s[0]];
    ReadOne(Reader(tokens, Between), s[0], Reader(tokens, InWord([s[0]], true)), s[1..]);
    ReadInert(tokens, [s[0]], s[1..]);
  }

  function Join(parts: seq<string>, separator: string): string {
    if parts == [] then ""
    else if |parts| == 1 then parts[0]
    else Join(parts[..|parts| - 1], separator) + separator + parts[|parts| - 1]
  }

  lemma JoinMore(parts: seq<string>, separator: string, part: string)
    requires parts != []
    ensures Join(parts + [part], separator) == Join(parts, separator) + separator + part
  {
  }

  function Quoted(words: seq<string>): seq<Token> {
    seq(|words|, i requires 0 <= i < |words| => Word(words[i], false))
  }

  lemma OneMoreWord(tokens: seq<Token>, last: string, line: string, start: Reader, value: string)
    requires ReadAll(start, line) == Some(Reader(tokens, InWord(last, false)))
    ensures ReadAll(start, line + " " + ShQuote(value)) == Some(Reader(tokens + [Word(last, false)], InWord(value, false)))
  {
    ReadOn(start, line, " ");
    ReadOn(start, line + " ", ShQuote(value));
    QuotedReadsBack(tokens + [Word(last, false)], value);
  }

  /** `cd` to the trimmed directory, and then. */
  function Prologue(cwd: string): seq<Token> {
    if Trim(cwd) == "" then [] else [Word("cd", true), Word(Trim(cwd), false), Operator("&&")]
  }

  lemma ReadPrologue(cwd: string)
    requires Trim(cwd) != ""
    ensures ReadAll(Reader([], Between), "cd " + ShQuote(Trim(cwd)) + " && ") == Some(Reader(Prologue(cwd), Between))
  {
    var start, dir := Reader([], Between), Trim(cwd);
    ReadCd();
    QuotedReadsBack([Word("cd", true)], dir);
    ReadAnd([Word("cd", true)], dir);
    ReadOn(start, "cd ", ShQuote(dir));
    ReadOn(start, "cd " + ShQuote(dir), " && ");
    assert [Word("cd", true)] + [Word(dir, false), Operator("&&")] == Prologue(cwd);
  }

  lemma ReadCd()
    ensures ReadAll(Reader([], Between), "cd ") == Some(Reader([Word("cd", true)], Between))
  {
    assert "cd " == ['c'] + (['d'] + ([' '] + "")) && "" + ['c'] == "c" && "c" + ['d'] == "cd";
    var r1, r2 := Reader([], InWord("c", true)), Reader([], InWord("cd", true));
    assert [] + [Word("cd", true)] == [Word("cd", true)];
    ReadOne(Reader([], Between), 'c', r1, ['d'] + ([' '] + ""));
    ReadOne(r1, 'd', r2, [' '] + "");
    ReadOne(r2, ' ', Reader([Word("cd", true)], Between), "");
  }

  lemma ReadAnd(tokens: seq<Token>, text: string)
    ensures ReadAll(Reader(tokens, InWord(text, false)), " && ")
            == Some(Reader(tokens + [Word(text, false), Operator("&&")], Between))
  {
    assert " && " == [' '] + (['&'] + (['&'] + ([' '] + ""))) && "&" + ['&'] == "&&";
    var words := tokens + [Word(text, false)];
    ReadOne(Reader(tokens, InWord(text, false)), ' ', Reader(words, Between), ['&'] + (['&'] + ([' '] + "")));
    ReadOne(Reader(words, Between), '&', Reader(words, InOperator("&")), ['&'] + ([' '] + ""));
    ReadOne(Reader(words, InOperator("&")), '&', Reader(words, InOperator("&&")), [' '] + "");
    ReadOne(Reader(words, InOperator("&&")), ' ', Reader(words + [Operator("&&")], Between), "");
    assert words + [Operator("&&")] == tokens + [Word(text, false), Operator("&&")];
  }

  /** However strange its arguments, the line splits into exactly the command and its arguments, after the change of directory. */
  method BuildReadCommandLine(command: string, args: seq<string>, cwd: string) returns (line: string)
    ensures Tokens(line).Some?
    ensures var tokens, words := Tokens(line).value, [command] + args;
            var prologue := if Trim(cwd) == "" then [] else [Word("cd", true), Word(Trim(cwd), false), Operator("&&")];
            && |tokens| == |prologue| + |words| && tokens[..|prologue|] == prologue
            && forall i :: 0 <= i < |words| ==> tokens[|prologue| + i] == Word(words[i], false)
  {
    var parts := [ShQuote(command)];
    ghost var start := Reader(Prologue(cwd), Between);
    ghost var words := [command];
    QuotedReadsBack(start.tokens, command);
    assert start.tokens + Quoted(words[..0]) == start.tokens;
    for i := 0 to |args|
      invariant |parts| == |words| == i + 1 && words == [command] + args[..i]
      invariant ReadAll(start, Join(parts, " ")) == Some(Reader(start.tokens + Quoted(words[..i]), InWord(words[i], false)))
    {
      OneMoreWord(start.tokens + Quoted(words[..i]), words[i], Join(parts, " "), start, args[i]);
      JoinMore(parts, " ", ShQuote(args[i]));
      assert (words + [args[i]])[..i + 1] == words;
      assert start.tokens + Quoted(words) == start.tokens + Quoted(words[..i]) + [Word(words[i], false)];
      parts := parts + [ShQuote(args[i])];
      words := words + [args[i]];
    }
    assert words == [command] + args;
    line := Join(parts, " ");
    assert Quoted(words) == Quoted(words[..|args|]) + [Word(words[|args|], false)];
    if Trim(cwd) != "" {
      ReadPrologue(cwd);
      ReadOn(Reader([], Between), "cd " + ShQuote(Trim(cwd)) + " && ", line);
      line := "cd " + ShQuote(Trim(cwd)) + " && " + line;
    }
    assert Prologue(cwd) + Quoted(words) == start.tokens + Quoted(words[..|args|]) + [Word(words[|args|], false)];
  }
}
