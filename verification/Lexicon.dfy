// The regular definitions and rules of domnode-xml-scanner.l, each said of the
// characters a match consists of.
module Lexicon {
  import opened Scanner
  import opened Patterns
  import opened Munch

  // {ws}*
  predicate Blanks(s: string) {
    forall i | 0 <= i < |s| :: s[i] == ' ' || s[i] == '\t' || s[i] == '\r' || s[i] == '\n'
  }

  // {namestart} and {namechar}.
  predicate Letter(c: char) { 'A' <= c <= 'Z' || 'a' <= c <= 'z' || c == '_' || c as int >= 128 }

  predicate NameLetter(c: char) { Letter(c) || '0' <= c <= '9' || c == '.' || c == '-' }

  predicate IsWord(s: string) { s != "" && Letter(s[0]) && forall i | 1 <= i < |s| :: NameLetter(s[i]) }

  predicate Without(s: string, cs: string) { forall i | 0 <= i < |s| :: s[i] !in cs }

  // {open} ends before a, {ws}? before b.
  predicate Opens(s: string, a: nat, b: nat) {
    a < b <= |s| && Blanks(s[..a]) && s[a] == '<' && Blanks(s[a + 1..b])
  }

  // Blanks to a, <!--, a text without -- to b, -->, blanks.
  predicate Comments(s: string, a: nat, b: nat) {
    && a + 4 < b && b + 3 <= |s| && Blanks(s[..a]) && s[a..a + 4] == "<!--"
    && NoDashes(s[a + 4..b]) && s[b..b + 3] == "-->" && Blanks(s[b + 3..])
  }

  // Blanks to a, <! or <?, no dash, no > before b, >, blanks.
  predicate Ignores(s: string, a: nat, b: nat) {
    && a + 3 <= b < |s| && Blanks(s[..a]) && s[a] == '<' && (s[a + 1] == '!' || s[a + 1] == '?')
    && s[a + 2] != '-' && Without(s[a + 3..b], ">") && s[b] == '>' && Blanks(s[b + 1..])
  }

  // What a rule matches.
  ghost predicate Lexeme(rule: int, s: string) {
    match rule
    case 0 => s != "" && Blanks(s)
    case 1 => s == "/"
    case 2 => s == "="
    case 3 => s != "" && s[0] == '>' && Blanks(s[1..])
    case 4 => IsWord(s)
    case 5 =>
      |s| >= 2 && s[|s| - 1] == s[0] &&
        ((s[0] == '"' && Without(s[1..|s| - 1], "\"&")) || (s[0] == '\'' && Without(s[1..|s| - 1], "'&")))
    case 6 => |s| >= 2 && s[..2] == "?>" && Blanks(s[2..])
    case 7 => exists a: nat, b: nat :: Opens(s, a, b) && IsWord(s[b..])
    case 8 => exists a: nat, b: nat :: Opens(s, a, b) && s[b..] == "/"
    case 9 => exists a: nat, b: nat :: Comments(s, a, b)
    case 10 => exists a: nat, b: nat :: Ignores(s, a, b)
    case 11 => s != "" && Without(s, "<\n&")
    case 12 => |s| == 1 && s[0] != '\n'
    case _ => s == "\r\n" || s == "\r" || s == "\n"
  }

  // The text of a comment: no dash at its end, and none before another.
  predicate NoDashes(x: string) {
    (x != "" ==> x[|x| - 1] != '-') && forall i | 0 <= i < |x| - 1 :: !(x[i] == '-' && x[i + 1] == '-')
  }

  lemma BlanksIs(s: string)
    ensures AllWs(s) <==> Blanks(s)
  {}

  lemma WordIs(s: string)
    ensures IsName(s) <==> IsWord(s)
  {
    if IsName(s) {
      forall i | 1 <= i < |s| ensures NameLetter(s[i]) { assert s[i] == s[1..][i - 1]; }
    }
  }

  lemma UndashedIs(x: string)
    ensures Undashed(x) <==> NoDashes(x)
  {}

  lemma WithoutIs(s: string, k: Class, cs: string)
    requires forall c :: Is(k, c) <==> c !in cs
    ensures All(k, s) <==> Without(s, cs)
  {}

  lemma StringIs(s: string)
    ensures In(Pattern(5), s) <==> Lexeme(5, s)
  {
    hide In;
    AltOf(Pattern(5).a, Pattern(5).b, s);
    QuotedIs(s, '"', "\"&");
    QuotedIs(s, '\'', "'&");
  }

  lemma QuotedIs(s: string, q: char, cs: string)
    requires cs == [q, '&']
    ensures In(Cat(Word([q]), Cat(Star(Chr(Not({q, '&'}))), Word([q]))), s)
      <==> |s| >= 2 && s[0] == q && s[|s| - 1] == q && Without(s[1..|s| - 1], cs)
  {
    hide In;
    var inner := Cat(Star(Chr(Not({q, '&'}))), Word([q]));
    if In(Cat(Word([q]), inner), s) {
      var i := CatParts(Word([q]), inner, s);
      WordOf([q], s[..i]);
      var t := s[i..];
      var j := CatParts(Star(Chr(Not({q, '&'}))), Word([q]), t);
      StarOf(Not({q, '&'}), t[..j]);
      WordOf([q], t[j..]);
      assert s[0] == s[..i][0] && s[|s| - 1] == t[j..][0] && s[1..|s| - 1] == t[..j];
    }
    if |s| >= 2 && s[0] == q && s[|s| - 1] == q && Without(s[1..|s| - 1], cs) {
      var t, k := s[1..], |s| - 2;
      assert t[..k] == s[1..|s| - 1];
      StarOf(Not({q, '&'}), t[..k]);
      WordOf([q], t[k..]);
      WordOf([q], s[..1]);
      CatOf(Star(Chr(Not({q, '&'}))), Word([q]), t, k);
      CatOf(Word([q]), inner, s, 1);
    }
  }

  lemma EndDefIs(s: string)
    ensures In(Pattern(6), s) <==> Lexeme(6, s)
  {
    hide In;
    if In(Pattern(6), s) {
      var i := CatParts(Word("?"), CLOSE, s);
      WordOf("?", s[..i]);
      CloseOf(s[i..]);
      BlanksIs(s[i..][1..]);
      assert s[..2] == s[..1] + [s[i..][0]] && s[i..][1..] == s[2..];
    }
    if Lexeme(6, s) {
      WordOf("?", s[..1]);
      assert s[1] == s[..2][1] && s[..1] == s[..2][..1] && s[1..][1..] == s[2..];
      BlanksIs(s[2..]);
      CloseOf(s[1..]);
      CatOf(Word("?"), CLOSE, s, 1);
    }
  }

  lemma StartIs(s: string)
    ensures In(Pattern(7), s) <==> Lexeme(7, s)
  {
    hide In, Pattern;
    if In(Pattern(7), s) {
      var a, b := StartParts(s);
      BlanksIs(s[..a]);
      BlanksIs(s[a + 1..b]);
      WordIs(s[b..]);
      assert Opens(s, a, b);
    }
    if Lexeme(7, s) {
      var a: nat, b: nat :| Opens(s, a, b) && IsWord(s[b..]);
      BlanksIs(s[..a]);
      BlanksIs(s[a + 1..b]);
      WordIs(s[b..]);
      StartOf(s, a, b);
    }
  }

  lemma EndIs(s: string)
    ensures In(Pattern(8), s) <==> Lexeme(8, s)
  {
    hide In, Pattern;
    if In(Pattern(8), s) {
      var a := EndParts(s);
      var b := |s| - 1;
      BlanksIs(s[..a]);
      BlanksIs(s[a + 1..b]);
      assert Opens(s, a, b) && s[b..] == "/";
    }
    if Lexeme(8, s) {
      var a: nat, b: nat :| Opens(s, a, b) && s[b..] == "/";
      BlanksIs(s[..a]);
      BlanksIs(s[a + 1..b]);
      assert s[b] == s[b..][0] && b == |s| - 1;
      EndOf(s, a);
    }
  }

  lemma CommentsIs(s: string, a: nat, b: nat)
    ensures IsComment(s, a, b) <==> Comments(s, a, b)
  {
    hide AllWs, Blanks, Undashed, NoDashes;
    if a + 4 < b && b + 3 <= |s| {
      BlanksIs(s[..a]);
      BlanksIs(s[b + 3..]);
      UndashedIs(s[a + 4..b]);
    }
  }

  lemma IgnoresIs(s: string, a: nat, b: nat)
    ensures IsIgnored(s, a, b) <==> Ignores(s, a, b)
  {
    hide AllWs, Blanks, Without, All;
    if a + 3 <= b < |s| {
      BlanksIs(s[..a]);
      BlanksIs(s[b + 1..]);
      WithoutIs(s[a + 3..b], Not({'>'}), ">");
    }
  }

  lemma CommentIs(s: string)
    ensures In(Pattern(9), s) <==> Lexeme(9, s)
  {
    hide In, Pattern, IsComment, Comments;
    if In(Pattern(9), s) {
      var a, b := CommentBody(s);
      CommentsIs(s, a, b);
    }
    if Lexeme(9, s) {
      var a: nat, b: nat :| Comments(s, a, b);
      CommentsIs(s, a, b);
      CommentOf(s, a, b);
    }
  }

  lemma IgnoredIs(s: string)
    ensures In(Pattern(10), s) <==> Lexeme(10, s)
  {
    hide In, Pattern, IsIgnored, Ignores;
    if In(Pattern(10), s) {
      var a, b := IgnoredParts(s);
      IgnoresIs(s, a, b);
    }
    if Lexeme(10, s) {
      var a: nat, b: nat :| Ignores(s, a, b);
      IgnoresIs(s, a, b);
      IgnoredOf(s, a, b);
    }
  }

  // Every rule matches exactly the texts it should.
  lemma RuleMatches(rule: int, s: string)
    requires 0 <= rule < RULES
    ensures In(Pattern(rule), s) <==> Lexeme(rule, s)
  {
    match rule
    case 0 => PlusOf(Space, s); BlanksIs(s);
    case 1 => WordOf("/", s);
    case 2 => WordOf("=", s);
    case 3 => CloseOf(s); if s != "" { BlanksIs(s[1..]); }
    case 4 => NameOf(s); WordIs(s);
    case 5 => StringIs(s);
    case 6 => EndDefIs(s);
    case 7 => StartIs(s);
    case 8 => EndIs(s);
    case 9 => CommentIs(s);
    case 10 => IgnoredIs(s);
    case 11 => PlusOf(Not({'<', '\n', '&'}), s); WithoutIs(s, Not({'<', '\n', '&'}), "<\n&");
    case 12 => ChrOf(Not({'\n'}), s);
    case _ => NewlineOf(s);
  }
}
