// The patterns of the scanner, read as conditions on the characters they match.
module Patterns {
  import opened Scanner

  predicate All(k: Class, s: string) { forall i | 0 <= i < |s| :: Is(k, s[i]) }

  predicate AllWs(s: string) { All(Space, s) }

  lemma {:induction false} StarOf(k: Class, s: string)
    ensures In(Star(Chr(k)), s) <==> All(k, s)
    decreases |s|
  {
    if s != "" {
      StarOf(k, s[1..]);
      if In(Star(Chr(k)), s) {
        var i :| 0 < i <= |s| && In(Chr(k), s[..i]) && In(Star(Chr(k)), s[i..]);
        assert i == 1 && s[0] == s[..1][0];
        assert forall j | 1 <= j < |s| :: s[j] == s[1..][j - 1];
      }
      if All(k, s) {
        assert In(Chr(k), s[..1]) && In(Star(Chr(k)), s[1..]);
      }
    }
  }

  lemma PlusOf(k: Class, s: string)
    ensures In(Plus(Chr(k)), s) <==> s != "" && All(k, s)
  {
    if In(Plus(Chr(k)), s) {
      var i :| 0 <= i <= |s| && In(Chr(k), s[..i]) && In(Star(Chr(k)), s[i..]);
      StarOf(k, s[i..]);
      assert s[0] == s[..1][0] && forall j | 1 <= j < |s| :: s[j] == s[1..][j - 1];
    }
    if s != "" && All(k, s) {
      StarOf(k, s[1..]);
      assert In(Chr(k), s[..1]) && In(Star(Chr(k)), s[1..]);
    }
  }

  // {ws}*
  lemma {:induction false} StarWs(s: string)
    ensures In(Star(WS), s) <==> AllWs(s)
    decreases |s|
  {
    if s != "" {
      if In(Star(WS), s) {
        var i :| 0 < i <= |s| && In(WS, s[..i]) && In(Star(WS), s[i..]);
        StarWs(s[i..]);
        PlusOf(Space, s[..i]);
        assert s == s[..i] + s[i..];
      }
      if AllWs(s) {
        PlusOf(Space, s);
        assert s[..|s|] == s && In(WS, s[..|s|]) && In(Star(WS), s[|s|..]);
      }
    }
  }

  lemma {:induction false} WordOf(w: string, s: string)
    ensures In(Word(w), s) <==> s == w
    decreases |w|
  {
    if w != "" {
      if In(Word(w), s) {
        var i :| 0 <= i <= |s| && In(Chr(Lit(w[0])), s[..i]) && In(Word(w[1..]), s[i..]);
        WordOf(w[1..], s[i..]);
        assert s == s[..1] + s[1..] && w == [w[0]] + w[1..];
      }
      if s == w {
        WordOf(w[1..], s[1..]);
        assert In(Chr(Lit(w[0])), s[..1]) && In(Word(w[1..]), s[1..]);
      }
    }
  }

  // {open}: blanks, then <.
  lemma OpenOf(s: string)
    ensures In(OPEN, s) <==> s != "" && AllWs(s[..|s| - 1]) && s[|s| - 1] == '<'
  {
    hide In;
    if In(OPEN, s) {
      var i := CatParts(Star(WS), Word("<"), s);
      StarWs(s[..i]);
      WordOf("<", s[i..]);
      assert s[|s| - 1] == s[i..][0];
    }
    if s != "" && AllWs(s[..|s| - 1]) && s[|s| - 1] == '<' {
      var i := |s| - 1;
      StarWs(s[..i]);
      WordOf("<", s[i..]);
      CatOf(Star(WS), Word("<"), s, i);
    }
  }

  // {close}: >, then blanks.
  lemma CloseOf(s: string)
    ensures In(CLOSE, s) <==> s != "" && s[0] == '>' && AllWs(s[1..])
  {
    hide In;
    if In(CLOSE, s) {
      var i := CatParts(Word(">"), Star(WS), s);
      StarWs(s[i..]);
      WordOf(">", s[..i]);
      assert s[0] == s[..i][0];
    }
    if s != "" && s[0] == '>' && AllWs(s[1..]) {
      StarWs(s[1..]);
      WordOf(">", s[..1]);
      CatOf(Word(">"), Star(WS), s, 1);
    }
  }

  predicate IsName(s: string) { s != "" && IsNameStart(s[0]) && All(NameChar, s[1..]) }

  lemma NameOf(s: string)
    ensures In(NAME, s) <==> IsName(s)
  {
    hide In;
    ChrThen(NameStart, Star(Chr(NameChar)), s);
    if s != "" { StarOf(NameChar, s[1..]); }
  }

  // {open}{ws}?: blanks, <, blanks.
  lemma MaybeWs(s: string)
    ensures In(Maybe(WS), s) <==> AllWs(s)
  {
    PlusOf(Space, s);
  }

  // Rule 7.
  lemma StartOf(s: string, a: nat, b: nat)
    requires a < b < |s| && AllWs(s[..a]) && s[a] == '<' && AllWs(s[a + 1..b]) && IsName(s[b..])
    ensures In(Pattern(7), s)
  {
    hide In;
    assert s[..a + 1][..a] == s[..a];
    OpenOf(s[..a + 1]);
    var t := s[a + 1..];
    assert t[..b - a - 1] == s[a + 1..b] && t[b - a - 1..] == s[b..];
    MaybeWs(t[..b - a - 1]);
    NameOf(t[b - a - 1..]);
    CatOf(Maybe(WS), NAME, t, b - a - 1);
    CatOf(OPEN, Cat(Maybe(WS), NAME), s, a + 1);
  }

  lemma StartParts(s: string) returns (a: nat, b: nat)
    requires In(Pattern(7), s)
    ensures a < b < |s| && AllWs(s[..a]) && s[a] == '<' && AllWs(s[a + 1..b]) && IsName(s[b..])
  {
    hide In;
    a := OpenThen(Cat(Maybe(WS), NAME), s);
    var t := s[a + 1..];
    var j := CatParts(Maybe(WS), NAME, t);
    MaybeWs(t[..j]);
    NameOf(t[j..]);
    b := a + 1 + j;
    assert t[..j] == s[a + 1..b] && t[j..] == s[b..];
  }

  // Rule 8.
  lemma EndOf(s: string, a: nat)
    requires a + 1 < |s| && AllWs(s[..a]) && s[a] == '<' && AllWs(s[a + 1..|s| - 1]) && s[|s| - 1] == '/'
    ensures In(Pattern(8), s)
  {
    hide In;
    assert s[..a + 1][..a] == s[..a];
    OpenOf(s[..a + 1]);
    var t, k := s[a + 1..], |s| - a - 2;
    assert t[..k] == s[a + 1..|s| - 1];
    MaybeWs(t[..k]);
    WordOf("/", t[k..]);
    CatOf(Maybe(WS), Word("/"), t, k);
    CatOf(OPEN, Cat(Maybe(WS), Word("/")), s, a + 1);
  }

  // {open} and something: blanks, <, and that.
  lemma OpenThen(r: Re, s: string) returns (a: nat)
    requires In(Cat(OPEN, r), s)
    ensures a < |s| && AllWs(s[..a]) && s[a] == '<' && In(r, s[a + 1..])
  {
    var i := CatParts(OPEN, r, s);
    hide In;
    OpenOf(s[..i]);
    a := i - 1;
    assert s[..i][..a] == s[..a];
  }

  lemma CatParts(x: Re, y: Re, s: string) returns (i: nat)
    requires In(Cat(x, y), s)
    ensures i <= |s| && In(x, s[..i]) && In(y, s[i..])
  {
    i :| 0 <= i <= |s| && In(x, s[..i]) && In(y, s[i..]);
  }

  lemma CatOf(x: Re, y: Re, s: string, i: nat)
    requires i <= |s| && In(x, s[..i]) && In(y, s[i..])
    ensures In(Cat(x, y), s)
  {}

  lemma AltOf(x: Re, y: Re, s: string)
    ensures In(Alt(x, y), s) <==> In(x, s) || In(y, s)
  {}

  lemma ChrOf(k: Class, s: string)
    ensures In(Chr(k), s) <==> |s| == 1 && Is(k, s[0])
  {}

  // A class and something: one character, and that.
  lemma ChrThen(k: Class, r: Re, s: string)
    ensures In(Cat(Chr(k), r), s) <==> s != "" && Is(k, s[0]) && In(r, s[1..])
  {
    if In(Cat(Chr(k), r), s) {
      var i := CatParts(Chr(k), r, s);
      ChrOf(k, s[..i]);
    }
    if s != "" && Is(k, s[0]) && In(r, s[1..]) {
      ChrOf(k, s[..1]);
      CatOf(Chr(k), r, s, 1);
    }
  }

  lemma EndParts(s: string) returns (a: nat)
    requires In(Pattern(8), s)
    ensures a + 1 < |s| && AllWs(s[..a]) && s[a] == '<' && AllWs(s[a + 1..|s| - 1]) && s[|s| - 1] == '/'
  {
    hide In;
    a := OpenThen(Cat(Maybe(WS), Word("/")), s);
    var t := s[a + 1..];
    var j := CatParts(Maybe(WS), Word("/"), t);
    MaybeWs(t[..j]);
    WordOf("/", t[j..]);
    assert t[..j] == s[a + 1..|s| - 1] && t[|t| - 1] == t[j..][0];
  }

  // What a comment has after its !--.
  const COMMENT_REST :=
    Cat(Plus(Alt(Chr(Not({'-'})), Cat(Word("-"), Chr(Not({'-'}))))), Cat(Word("--"), CLOSE))

  lemma CommentParts(s: string) returns (a: nat)
    requires In(Pattern(9), s)
    ensures a + 1 < |s| && AllWs(s[..a]) && s[a] == '<' && s[a + 1] == '!'
  {
    hide In;
    a := OpenThen(Cat(Word("!--"), COMMENT_REST), s);
    var t := s[a + 1..];
    var j := CatParts(Word("!--"), COMMENT_REST, t);
    WordOf("!--", t[..j]);
    assert t[0] == t[..j][0];
  }

  // No two dashes in a row, and none at the end.
  predicate Undashed(x: string) {
    forall i | 0 <= i < |x| && x[i] == '-' :: i + 1 < |x| && x[i + 1] != '-'
  }

  const COMMENT_UNIT := Alt(Chr(Not({'-'})), Cat(Word("-"), Chr(Not({'-'}))))

  lemma UnitOf(u: string)
    ensures In(COMMENT_UNIT, u) <==> (|u| == 1 && u[0] != '-') || (|u| == 2 && u[0] == '-' && u[1] != '-')
  {
    hide In;
    AltOf(Chr(Not({'-'})), Cat(Word("-"), Chr(Not({'-'}))), u);
    ChrOf(Not({'-'}), u);
    if In(Cat(Word("-"), Chr(Not({'-'}))), u) {
      var i := CatParts(Word("-"), Chr(Not({'-'})), u);
      WordOf("-", u[..i]);
      ChrOf(Not({'-'}), u[i..]);
      assert u == u[..i] + u[i..];
    }
    if |u| == 2 && u[0] == '-' && u[1] != '-' {
      WordOf("-", u[..1]);
      ChrOf(Not({'-'}), u[1..]);
      CatOf(Word("-"), Chr(Not({'-'})), u, 1);
    }
  }

  lemma {:induction false} StarUnits(x: string)
    ensures In(Star(COMMENT_UNIT), x) <==> Undashed(x)
    decreases |x|
  {
    if x != "" {
      if In(Star(COMMENT_UNIT), x) {
        var i :| 0 < i <= |x| && In(COMMENT_UNIT, x[..i]) && In(Star(COMMENT_UNIT), x[i..]);
        hide In;
        UnitOf(x[..i]);
        StarUnits(x[i..]);
        forall j | 0 <= j < |x| && x[j] == '-' ensures j + 1 < |x| && x[j + 1] != '-' {
          if j >= i { assert x[i..][j - i] == '-'; } else { assert x[..i][j] == '-'; }
        }
      }
      if Undashed(x) {
        var i := if x[0] == '-' then 2 else 1;
        UnitOf(x[..i]);
        StarUnits(x[i..]);
        assert In(COMMENT_UNIT, x[..i]) && In(Star(COMMENT_UNIT), x[i..]);
      }
    }
  }

  lemma UnitsOf(x: string)
    ensures In(Plus(COMMENT_UNIT), x) <==> x != "" && Undashed(x)
  {
    hide In;
    if In(Plus(COMMENT_UNIT), x) {
      var i := CatParts(COMMENT_UNIT, Star(COMMENT_UNIT), x);
      UnitOf(x[..i]);
      StarUnits(x[i..]);
      forall j | 0 <= j < |x| && x[j] == '-' ensures j + 1 < |x| && x[j + 1] != '-' {
        if j >= i { assert x[i..][j - i] == '-'; } else { assert x[..i][j] == '-'; }
      }
    }
    if x != "" && Undashed(x) {
      var i := if x[0] == '-' then 2 else 1;
      UnitOf(x[..i]);
      StarUnits(x[i..]);
      CatOf(COMMENT_UNIT, Star(COMMENT_UNIT), x, i);
    }
  }

  // Rule 9: blanks, <!--, a text without --, -->, blanks.
  predicate IsComment(s: string, a: nat, b: nat) {
    && a + 4 < b && b + 3 <= |s| && AllWs(s[..a]) && s[a..a + 4] == "<!--"
    && Undashed(s[a + 4..b]) && s[b..b + 3] == "-->" && AllWs(s[b + 3..])
  }

  // What rule 9 has after its opening mark: a text without --, and -->.
  lemma CommentRest(u: string, k: nat)
    requires 0 < k && k + 3 <= |u| && Undashed(u[..k]) && u[k..k + 3] == "-->" && AllWs(u[k + 3..])
    ensures In(COMMENT_REST, u)
  {
    hide In, Undashed, AllWs;
    var v := u[k..];
    assert v[..2] == u[k..k + 3][..2] == "--" && v[2] == u[k..k + 3][2] && v[2..][1..] == u[k + 3..];
    UnitsOf(u[..k]);
    WordOf("--", v[..2]);
    CloseOf(v[2..]);
    CatOf(Word("--"), CLOSE, v, 2);
    CatOf(Plus(COMMENT_UNIT), Cat(Word("--"), CLOSE), u, k);
  }

  lemma CommentRestParts(u: string) returns (k: nat)
    requires In(COMMENT_REST, u)
    ensures 0 < k && k + 3 <= |u| && Undashed(u[..k]) && u[k..k + 3] == "-->" && AllWs(u[k + 3..])
  {
    hide In, Undashed, AllWs;
    k := CatParts(Plus(COMMENT_UNIT), Cat(Word("--"), CLOSE), u);
    UnitsOf(u[..k]);
    var v := u[k..];
    var m := CatParts(Word("--"), CLOSE, v);
    WordOf("--", v[..m]);
    CloseOf(v[m..]);
    assert m == 2 && v[m..][0] == v[2] && v[m..][1..] == u[k + 3..];
    assert u[k..k + 3] == v[..2] + [v[2]];
  }

  lemma CommentOf(s: string, a: nat, b: nat)
    requires IsComment(s, a, b)
    ensures In(Pattern(9), s)
  {
    hide In, Undashed, AllWs;
    var t := s[a + 1..];
    var u, k := t[3..], b - a - 4;
    assert s[..a + 1][..a] == s[..a] && s[a] == s[a..a + 4][0];
    OpenOf(s[..a + 1]);
    assert t[..3] == s[a..a + 4][1..] == "!--";
    WordOf("!--", t[..3]);
    assert u[..k] == s[a + 4..b] && u[k..k + 3] == s[b..b + 3] && u[k + 3..] == s[b + 3..];
    CommentRest(u, k);
    CatOf(Word("!--"), COMMENT_REST, t, 3);
    CatOf(OPEN, Cat(Word("!--"), COMMENT_REST), s, a + 1);
  }

  lemma CommentBody(s: string) returns (a: nat, b: nat)
    requires In(Pattern(9), s)
    ensures IsComment(s, a, b)
  {
    hide In, Undashed, AllWs;
    a := OpenThen(Cat(Word("!--"), COMMENT_REST), s);
    var t := s[a + 1..];
    var j := CatParts(Word("!--"), COMMENT_REST, t);
    WordOf("!--", t[..j]);
    var u := t[j..];
    var k := CommentRestParts(u);
    b := a + 4 + k;
    assert s[a..a + 4] == [s[a]] + t[..j];
    assert u == s[a + 4..];
    assert u[..k] == s[a + 4..b] && u[k..k + 3] == s[b..b + 3] && u[k + 3..] == s[b + 3..];
  }

  // Rule 10: blanks, <, ! or ?, not -, anything but >, then {close}.
  predicate IsIgnored(s: string, a: nat, b: nat) {
    && a + 3 <= b < |s| && AllWs(s[..a]) && s[a] == '<' && s[a + 1] in {'!', '?'} && s[a + 2] != '-'
    && All(Not({'>'}), s[a + 3..b]) && s[b] == '>' && AllWs(s[b + 1..])
  }

  lemma IgnoredOf(s: string, a: nat, b: nat)
    requires IsIgnored(s, a, b)
    ensures In(Pattern(10), s)
  {
    hide In;
    var t := s[a + 1..];
    var v, k := t[1..][1..], b - a - 3;
    assert s[..a + 1][..a] == s[..a] && v[..k] == s[a + 3..b] && v[k..] == s[b..] && v[k..][1..] == s[b + 1..];
    OpenOf(s[..a + 1]);
    StarOf(Not({'>'}), v[..k]);
    CloseOf(v[k..]);
    CatOf(Star(Chr(Not({'>'}))), CLOSE, v, k);
    ChrThen(Not({'-'}), Cat(Star(Chr(Not({'>'}))), CLOSE), t[1..]);
    ChrThen(OneOf({'!', '?'}), Cat(Chr(Not({'-'})), Cat(Star(Chr(Not({'>'}))), CLOSE)), t);
    CatOf(OPEN, Cat(Chr(OneOf({'!', '?'})), Cat(Chr(Not({'-'})), Cat(Star(Chr(Not({'>'}))), CLOSE))), s, a + 1);
  }

  lemma IgnoredParts(s: string) returns (a: nat, b: nat)
    requires In(Pattern(10), s)
    ensures IsIgnored(s, a, b)
  {
    hide In;
    a := OpenThen(Cat(Chr(OneOf({'!', '?'})), Cat(Chr(Not({'-'})), Cat(Star(Chr(Not({'>'}))), CLOSE))), s);
    var t := s[a + 1..];
    ChrThen(OneOf({'!', '?'}), Cat(Chr(Not({'-'})), Cat(Star(Chr(Not({'>'}))), CLOSE)), t);
    ChrThen(Not({'-'}), Cat(Star(Chr(Not({'>'}))), CLOSE), t[1..]);
    var v := t[1..][1..];
    var k := CatParts(Star(Chr(Not({'>'}))), CLOSE, v);
    StarOf(Not({'>'}), v[..k]);
    CloseOf(v[k..]);
    b := a + 3 + k;
    assert v[..k] == s[a + 3..b] && v[k..] == s[b..] && v[k..][1..] == s[b + 1..];
  }

  // What rules 7 to 10 have in common: blanks, then <.
  lemma OpensWith(rule: int, s: string) returns (a: nat)
    requires 7 <= rule <= 10 && In(Pattern(rule), s)
    ensures a + 1 < |s| && AllWs(s[..a]) && s[a] == '<'
    ensures rule == 8 ==> AllWs(s[a + 1..|s| - 1]) && s[|s| - 1] == '/'
    ensures rule == 9 ==> s[a + 1] == '!'
    ensures rule == 10 ==> s[a + 1] == '!' || s[a + 1] == '?'
  {
    hide In, Pattern, All;
    var b;
    if rule == 7 { a, b := StartParts(s); }
    else if rule == 8 { a := EndParts(s); }
    else if rule == 9 { a := CommentParts(s); }
    else { a, b := IgnoredParts(s); }
  }

  // Rule 5, double-quoted or single-quoted.
  lemma StringOf(s: string)
    requires |s| >= 2 && s[0] == '"' && s[|s| - 1] == '"' && All(Not({'"', '&'}), s[1..|s| - 1])
    ensures In(Pattern(5), s)
  {
    hide In;
    var t, k := s[1..], |s| - 2;
    assert t[..k] == s[1..|s| - 1];
    StarOf(Not({'"', '&'}), t[..k]);
    WordOf("\"", t[k..]);
    WordOf("\"", s[..1]);
    CatOf(Star(Chr(Not({'"', '&'}))), Word("\""), t, k);
    CatOf(Word("\""), Cat(Star(Chr(Not({'"', '&'}))), Word("\"")), s, 1);
    AltOf(Pattern(5).a, Pattern(5).b, s);
  }

  lemma StringParts(s: string)
    requires In(Pattern(5), s)
    ensures |s| >= 2 && (s[0] == '"' || s[0] == '\'') && s[|s| - 1] == s[0]
    ensures forall i | 1 <= i < |s| - 1 :: s[i] != s[0]
  {
    QuotedParts(s, '"');
    QuotedParts(s, '\'');
  }

  lemma QuotedParts(s: string, q: char)
    requires q == '"' || q == '\''
    ensures In(Cat(Word([q]), Cat(Star(Chr(Not({q, '&'}))), Word([q]))), s) ==>
      |s| >= 2 && s[0] == q && s[|s| - 1] == q && forall i | 1 <= i < |s| - 1 :: s[i] != q
  {
    hide In;
    if In(Cat(Word([q]), Cat(Star(Chr(Not({q, '&'}))), Word([q]))), s) {
      var i := CatParts(Word([q]), Cat(Star(Chr(Not({q, '&'}))), Word([q])), s);
      WordOf([q], s[..i]);
      var t := s[i..];
      var j := CatParts(Star(Chr(Not({q, '&'}))), Word([q]), t);
      StarOf(Not({q, '&'}), t[..j]);
      WordOf([q], t[j..]);
      assert s[0] == s[..i][0] && s[|s| - 1] == t[j..][0];
      forall m | 1 <= m < |s| - 1 ensures s[m] != q { assert s[m] == t[..j][m - 1]; }
    }
  }
}
