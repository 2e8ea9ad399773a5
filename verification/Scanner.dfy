// The scanner of domnode-xml-scanner.l: its regular definitions and rules, and
// flex's choice between them - the longest match, and the first rule of those.
module Scanner {
  import opened Lalr

  // What one character of a pattern stands for.
  datatype Class = Lit(c: char) | Space | NameStart | NameChar | Not(cs: set<char>) | OneOf(cs: set<char>)

  predicate IsWs(c: char) { c in {' ', '\t', '\r', '\n'} }

  // Bytes from 128 up (\200-\377) count as letters.
  predicate IsNameStart(c: char) { 'A' <= c <= 'Z' || 'a' <= c <= 'z' || '\U{80}' <= c || c == '_' }

  predicate IsNameChar(c: char) { IsNameStart(c) || '0' <= c <= '9' || c == '.' || c == '-' }

  predicate Is(k: Class, c: char) {
    match k
    case Lit(d) => c == d
    case Space => IsWs(c)
    case NameStart => IsNameStart(c)
    case NameChar => IsNameChar(c)
    case Not(cs) => c !in cs
    case OneOf(cs) => c in cs
  }

  datatype Re = Chr(k: Class) | Nothing | Cat(a: Re, b: Re) | Alt(a: Re, b: Re) | Star(a: Re)

  // The language of a pattern.
  predicate In(r: Re, s: string)
    decreases r, |s|
  {
    match r
    case Chr(k) => |s| == 1 && Is(k, s[0])
    case Nothing => s == ""
    case Cat(a, b) => exists i | 0 <= i <= |s| :: In(a, s[..i]) && In(b, s[i..])
    case Alt(a, b) => In(a, s) || In(b, s)
    case Star(a) => s == "" || exists i | 0 < i <= |s| :: In(a, s[..i]) && In(r, s[i..])
  }

  function Word(s: string): Re {
    if s == "" then Nothing else Cat(Chr(Lit(s[0])), Word(s[1..]))
  }

  function Plus(r: Re): Re { Cat(r, Star(r)) }

  function Maybe(r: Re): Re { Alt(r, Nothing) }

  const NL := Alt(Word("\r\n"), Alt(Word("\r"), Word("\n")))
  const WS := Plus(Chr(Space))
  const OPEN := Cat(Star(WS), Word("<"))
  const CLOSE := Cat(Word(">"), Star(WS))
  const NAME := Cat(Chr(NameStart), Star(Chr(NameChar)))
  const DATA := Plus(Chr(Not({'<', '\n', '&'})))
  const COMMENT := Cat(OPEN, Cat(Word("!--"), Cat(Plus(Alt(Chr(Not({'-'})), Cat(Word("-"), Chr(Not({'-'}))))),
      Cat(Word("--"), CLOSE))))
  const IGNORED := Cat(OPEN, Cat(Chr(OneOf({'!', '?'})), Cat(Chr(Not({'-'})), Cat(Star(Chr(Not({'>'}))), CLOSE))))
  const STRING := Alt(
    Cat(Word("\""), Cat(Star(Chr(Not({'"', '&'}))), Word("\""))),
    Cat(Word("'"), Cat(Star(Chr(Not({'\'', '&'}))), Word("'"))))

  datatype Mode = Initial | InContent

  const FIRST := 0
  const RULES := 14

  function Pattern(rule: int): Re {
    match rule
    case 0 => WS
    case 1 => Word("/")
    case 2 => Word("=")
    case 3 => CLOSE
    case 4 => NAME
    case 5 => STRING
    case 6 => Cat(Word("?"), CLOSE)
    case 7 => Cat(OPEN, Cat(Maybe(WS), NAME))
    case 8 => Cat(OPEN, Cat(Maybe(WS), Word("/")))
    case 9 => COMMENT
    case 10 => IGNORED
    case 11 => DATA
    case 12 => Chr(Not({'\n'}))
    case _ => NL
  }

  // CONTENT is an inclusive start condition.
  predicate Active(mode: Mode, rule: int) {
    match mode
    case Initial => rule != 11
    case InContent => rule >= 7
  }

  // The longest prefix of s[..n] that r matches, or -1.
  function Longest(r: Re, s: string, n: nat): (k: int)
    requires n <= |s|
    ensures -1 <= k <= n
    ensures k >= 0 ==> In(r, s[..k])
    ensures forall m | k < m <= n :: !In(r, s[..m])
  {
    if In(r, s[..n]) then n else if n == 0 then -1 else Longest(r, s, n - 1)
  }

  // flex's choice among the rules from `rule` on: the rule and the length of its match.
  function Choose(mode: Mode, s: string, rule: int): (c: (int, int))
    requires FIRST <= rule <= RULES
    decreases RULES - rule
  {
    if rule == RULES then (RULES, -1)
    else
      var rest := Choose(mode, s, rule + 1);
      var k := if Active(mode, rule) then Longest(Pattern(rule), s, |s|) else -1;
      if k >= rest.1 && k > 0 then (rule, k) else rest
  }

  // isspace(3) in the C locale.
  predicate IsSpace(c: char) { IsWs(c) || c == '\U{B}' || c == '\U{C}' }

  function SkipBlank(s: string): string {
    if s != "" && (IsSpace(s[0]) || s[0] == '<') then SkipBlank(s[1..]) else s
  }

  function UntilSpace(s: string): string {
    if s == "" || IsSpace(s[0]) then "" else [s[0]] + UntilSpace(s[1..])
  }

  function UntilQuote(s: string): string {
    if s == "" || s[0] == '"' then "" else [s[0]] + UntilQuote(s[1..])
  }

  function SkipSpace(s: string): string {
    if s != "" && IsSpace(s[0]) then SkipSpace(s[1..]) else s
  }

  function UntilArrow(s: string): string {
    if s == "" || "-->" <= s then "" else [s[0]] + UntilArrow(s[1..])
  }

  // The texts that word(), string() and comment() extract from a match.
  function WordText(s: string): string { UntilSpace(SkipBlank(s)) }

  function StringText(s: string): string { if s == "" then "" else UntilQuote(s[1..]) }

  function CommentText(s: string): string { if |s| < 4 then "" else UntilArrow(SkipSpace(s[4..])) }

  function Emit(rule: int, text: string): seq<Token> {
    match rule
    case 1 => [Slash]
    case 2 => [Eq]
    case 3 => [Close]
    case 4 => [Name(text)]
    case 5 => [Value(StringText(text))]
    case 6 => [EndDef]
    case 7 => [Start(WordText(text))]
    case 8 => [End]
    case 9 => [Comment(CommentText(text))]
    case 11 => [Data(text)]
    case _ => []
  }

  function NextMode(mode: Mode, rule: int): Mode {
    match rule
    case 3 => InContent
    case 7 => Initial
    case 8 => Initial
    case _ => mode
  }

  // The tokens of a text, and the characters reported as wrong input.
  function Scan(mode: Mode, s: string): (r: (seq<Token>, string))
    decreases |s|
  {
    if s == "" then ([], "")
    else
      var (rule, n) := Choose(mode, s, FIRST);
      if !(0 < n <= |s|) then ([], s)
      else
        var (ts, bad) := Scan(NextMode(mode, rule), s[n..]);
        (Emit(rule, s[..n]) + ts, if rule == 12 then s[..n] + bad else bad)
  }

  // word(), as the two loops of the source.
  method ExtractWord(s: string) returns (buf: string)
    ensures buf == WordText(s)
  {
    var k := 0;
    while k < |s| && (IsSpace(s[k]) || s[k] == '<')
      invariant 0 <= k <= |s| && SkipBlank(s) == SkipBlank(s[k..])
    {
      k := k + 1;
    }
    assert SkipBlank(s) == s[k..];
    var i := k;
    buf := "";
    while i < |s| && !IsSpace(s[i])
      invariant k <= i <= |s| && buf == s[k..i] && WordText(s) == buf + UntilSpace(s[i..])
    {
      buf := buf + [s[i]];
      i := i + 1;
    }
  }

  // string(), for a match that a double quote ends.
  method ExtractString(s: string) returns (buf: string)
    requires s != "" && '"' in s[1..]
    ensures buf == StringText(s)
  {
    buf := s[1..];
    var i := 0;
    while buf[i] != '"'
      invariant 0 <= i < |buf| && '"' in buf[i..]
      invariant buf == s[1..] && UntilQuote(buf) == buf[..i] + UntilQuote(buf[i..])
      decreases |buf| - i
    {
      i := i + 1;
    }
    assert UntilQuote(buf[i..]) == "";
    buf := buf[..i];
  }

  lemma {:induction false} LongestIs(r: Re, s: string, n: nat, k: nat)
    requires k <= n <= |s| && In(r, s[..k]) && forall m | k < m <= n :: !In(r, s[..m])
    ensures Longest(r, s, n) == k
  {
    if n > k { LongestIs(r, s, n - 1, k); }
  }

  ghost predicate Matches(mode: Mode, s: string, rule: int, m: int) {
    0 <= rule < RULES && Active(mode, rule) && 0 < m <= |s| && In(Pattern(rule), s[..m])
  }

  // flex's choice: the longest match, and of equally long ones that of the first rule.
  ghost predicate Wins(mode: Mode, s: string, rule: int, n: int) {
    && Matches(mode, s, rule, n)
    && forall other, m | Matches(mode, s, other, m) :: m < n || (m == n && rule <= other)
  }

  // Choose returns what flex's two criteria select.
  lemma {:induction false} ChooseBest(mode: Mode, s: string, rule: int)
    requires FIRST <= rule <= RULES
    ensures var (w, n) := Choose(mode, s, rule);
      if n > 0 then
        && rule <= w && Matches(mode, s, w, n)
        && forall other, m | rule <= other && Matches(mode, s, other, m) :: m < n || (m == n && w <= other)
      else forall other, m | rule <= other :: !Matches(mode, s, other, m)
    decreases RULES - rule
  {
    hide Pattern, In, Longest, Active;
    if rule < RULES {
      ChooseBest(mode, s, rule + 1);
      if Active(mode, rule) { LongestMatch(mode, s, rule); }
    }
  }

  lemma LongestMatch(mode: Mode, s: string, rule: int)
    requires 0 <= rule < RULES && Active(mode, rule)
    ensures var k := Longest(Pattern(rule), s, |s|);
      && (k > 0 ==> Matches(mode, s, rule, k))
      && forall m | Matches(mode, s, rule, m) :: m <= k
  {
    hide Pattern, In;
  }

  lemma WinnerIsChosen(mode: Mode, s: string, rule: int, n: int)
    requires Wins(mode, s, rule, n)
    ensures Choose(mode, s, FIRST) == (rule, n)
  {
    hide Pattern, In, Longest, Choose, Active;
    ChooseBest(mode, s, FIRST);
  }

  // A text with a winner is scanned by taking its match off the front.
  lemma ScanTakes(mode: Mode, s: string, rule: int, n: int)
    requires Wins(mode, s, rule, n)
    ensures var (ts, bad) := Scan(NextMode(mode, rule), s[n..]);
      Scan(mode, s) == (Emit(rule, s[..n]) + ts, if rule == 12 then s[..n] + bad else bad)
  {
    hide Pattern, In, Longest, Choose, Active, Emit;
    WinnerIsChosen(mode, s, rule, n);
  }
}
