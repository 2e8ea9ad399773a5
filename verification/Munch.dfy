// Which rule wins at each place of a printed document, and how far it reaches.
module Munch {
  import opened Scanner
  import opened Patterns

  // What the rules without {open} match.
  lemma Facts(rule: int, s: string)
    requires 0 <= rule < RULES && !(7 <= rule <= 10) && In(Pattern(rule), s) && s != ""
    ensures match rule
      case 0 => AllWs(s)
      case 1 => s == "/"
      case 2 => s == "="
      case 3 => s[0] == '>' && AllWs(s[1..])
      case 4 => IsName(s)
      case 5 =>
        |s| >= 2 && (s[0] == '"' || s[0] == '\'') && s[|s| - 1] == s[0] && forall i | 1 <= i < |s| - 1 :: s[i] != s[0]
      case 6 => s[0] == '?'
      case 11 => All(Not({'<', '\n', '&'}), s)
      case 12 => |s| == 1 && s[0] != '\n'
      case _ => s in {"\r\n", "\r", "\n"}
  {
    hide In;
    match rule
    case 0 => PlusOf(Space, s);
    case 1 => WordOf("/", s);
    case 2 => WordOf("=", s);
    case 3 => CloseOf(s);
    case 4 => NameOf(s);
    case 5 => StringParts(s);
    case 6 =>
      var i := CatParts(Word("?"), CLOSE, s);
      WordOf("?", s[..i]);
      assert s[0] == s[..i][0];
    case 11 => PlusOf(Not({'<', '\n', '&'}), s);
    case 12 => ChrOf(Not({'\n'}), s);
    case _ => NewlineOf(s);
  }

  lemma NewlineOf(s: string)
    ensures In(NL, s) <==> s in {"\r\n", "\r", "\n"}
  {
    WordOf("\r\n", s);
    WordOf("\r", s);
    WordOf("\n", s);
  }

  predicate StartsWith(s: string, k: Class) { s != "" && Is(k, s[0]) }

  lemma WsSlice(s: string, lo: nat, hi: nat)
    requires lo <= hi <= |s| && AllWs(s[lo..hi])
    ensures forall i | lo <= i < hi :: IsWs(s[i])
  {
    forall i | lo <= i < hi ensures IsWs(s[i]) { assert s[i] == s[lo..hi][i - lo]; }
  }

  // The first character of a match of rules 7 to 10, past the blanks, is a <.
  lemma OpenAt(rule: int, t: string, m: nat, w: nat) returns (a: nat)
    requires 7 <= rule <= 10 && m <= |t| && In(Pattern(rule), t[..m])
    requires w < |t| && AllWs(t[..w]) && !IsWs(t[w])
    ensures a == w && w + 1 < m && t[w] == '<'
    ensures rule == 8 ==> AllWs(t[w + 1..m - 1]) && t[m - 1] == '/'
    ensures rule == 9 ==> t[w + 1] == '!'
    ensures rule == 10 ==> t[w + 1] == '!' || t[w + 1] == '?'
  {
    hide In, Pattern;
    a := OpensWith(rule, t[..m]);
    assert t[..m][w + 1..m - 1] == t[w + 1..m - 1];
  }

  // Blanks, <, blanks, a name.
  lemma StartWins(mode: Mode, w: string, o: string, name: string, rest: string)
    requires AllWs(w) && AllWs(o) && IsName(name) && !StartsWith(rest, NameChar)
    ensures Wins(mode, w + "<" + o + name + rest, 7, |w| + 1 + |o| + |name|)
  {
    hide In, Pattern;
    var t, n, a, b := w + "<" + o + name + rest, |w| + 1 + |o| + |name|, |w|, |w| + 1 + |o|;
    assert t[..a] == w && t[a + 1..b] == o && t[..n][..a] == w && t[..n][a + 1..b] == o && t[..n][b..] == name;
    StartOf(t[..n], a, b);
    assert t[a] == '<' && t[b] == name[0] && (n < |t| ==> t[n] == rest[0]);
    forall other, m | Matches(mode, t, other, m) ensures m < n || (m == n && 7 <= other) {
      if 7 <= other <= 10 { StartBounds(other, t, m, a, b, n); } else { BlanksBound(other, t, m, a); }
    }
  }

  // Before a start tag, rules 7 to 10 stop at the name's end.
  lemma StartBounds(other: int, t: string, m: nat, a: nat, b: nat, n: nat)
    requires 7 <= other <= 10 && m <= |t| && In(Pattern(other), t[..m])
    requires a < b < n <= |t| && AllWs(t[..a]) && t[a] == '<' && AllWs(t[a + 1..b]) && IsNameStart(t[b])
    requires n < |t| ==> !IsNameChar(t[n])
    ensures m <= n
  {
    hide In, Pattern;
    WsSlice(t, a + 1, b);
    if other == 7 {
      var i, c := StartParts(t[..m]);
      WsSlice(t[..m], 0, i);
      WsSlice(t[..m], a + 1, c);
      NameBound(t, m, c, n);
    } else {
      var i := OpenAt(other, t, m, a);
      if other == 8 { WsSlice(t, a + 1, m - 1); }
    }
  }

  lemma NameBound(t: string, m: nat, c: nat, n: nat)
    requires c < m <= |t| && IsName(t[..m][c..]) && c < n <= |t| && (n < |t| ==> !IsNameChar(t[n]))
    ensures m <= n
  {}

  // Before blanks and a <, the other rules stop at the <.
  lemma BlanksBound(other: int, t: string, m: nat, a: nat)
    requires 0 <= other < RULES && !(7 <= other <= 10) && 0 < m <= |t| && In(Pattern(other), t[..m])
    requires a < |t| && AllWs(t[..a]) && t[a] == '<'
    ensures m <= a + 1
  {
    hide In, Pattern;
    assert m > a ==> t[..m][a] == '<';
    Facts(other, t[..m]);
  }

  // Blanks, <, blanks, a slash.
  lemma EndWins(mode: Mode, w: string, o: string, rest: string)
    requires AllWs(w) && AllWs(o)
    ensures Wins(mode, w + "<" + o + "/" + rest, 8, |w| + |o| + 2)
  {
    hide In, Pattern;
    var t, a, b := w + "<" + o + "/" + rest, |w|, |w| + 1 + |o|;
    assert t[..a] == w && t[a + 1..b] == o && t[..b + 1][..a] == w && t[..b + 1][a + 1..b] == o;
    EndOf(t[..b + 1], a);
    WsSlice(t, a + 1, b);
    forall other, m | Matches(mode, t, other, m) ensures m < b + 1 || (m == b + 1 && 8 <= other) {
      if 7 <= other <= 10 { EndBounds(other, t, m, a, b); } else { BlanksBound(other, t, m, a); }
    }
  }

  // Before an end tag, rules 7 to 10 stop at the slash.
  lemma EndBounds(other: int, t: string, m: nat, a: nat, b: nat)
    requires 7 <= other <= 10 && m <= |t| && In(Pattern(other), t[..m])
    requires a < b < |t| && AllWs(t[..a]) && t[a] == '<' && (forall i | a < i < b :: IsWs(t[i])) && t[b] == '/'
    ensures m <= b + 1 && other == 8
  {
    hide In, Pattern;
    if other == 7 {
      var i, c := StartParts(t[..m]);
      WsSlice(t[..m], 0, i);
      WsSlice(t[..m], a + 1, c);
    } else {
      var i := OpenAt(other, t, m, a);
      if other == 8 { WsSlice(t, a + 1, m - 1); }
    }
  }

  // Blanks inside a tag.
  lemma BlanksWin(w: string, rest: string)
    requires w != "" && AllWs(w) && rest != "" && !IsWs(rest[0]) && rest[0] != '<'
    ensures Wins(Initial, w + rest, 0, |w|)
  {
    hide In, Pattern;
    var t, a := w + rest, |w|;
    assert t[..a] == w;
    PlusOf(Space, t[..a]);
    assert In(Pattern(0), t[..a]) by { PatternOf0(); }
    forall other, m | Matches(Initial, t, other, m) ensures m < a || (m == a && 0 <= other) {
      if 7 <= other <= 10 {
        var i := OpenAt(other, t, m, a);
      } else {
        assert m > a ==> t[..m][a] == rest[0];
        Facts(other, t[..m]);
      }
    }
  }

  lemma PatternOf0()
    ensures Pattern(0) == WS && Pattern(1) == Word("/") && Pattern(2) == Word("=") && Pattern(3) == CLOSE
    ensures Pattern(4) == NAME && Pattern(11) == DATA
  {}

  // A name inside a tag.
  lemma NameWins(name: string, rest: string)
    requires IsName(name) && !StartsWith(rest, NameChar)
    ensures Wins(Initial, name + rest, 4, |name|)
  {
    hide In, Pattern;
    var t, n := name + rest, |name|;
    assert t[..n] == name;
    NameOf(t[..n]);
    PatternOf0();
    forall other, m | Matches(Initial, t, other, m) ensures m < n || (m == n && 4 <= other) {
      if 7 <= other <= 10 {
        var i := OpenAt(other, t, m, 0);
      } else {
        assert m > n ==> t[..m][1..][n - 1] == rest[0];
        Facts(other, t[..m]);
      }
    }
  }

  // = and / inside a tag.
  lemma MarkWins(c: char, rest: string)
    requires c == '=' || c == '/'
    ensures Wins(Initial, [c] + rest, if c == '/' then 1 else 2, 1)
  {
    hide In, Pattern;
    var t := [c] + rest;
    assert t[..1] == [c];
    WordOf("/", t[..1]);
    WordOf("=", t[..1]);
    PatternOf0();
    forall other, m | Matches(Initial, t, other, m) ensures m < 1 || (m == 1 && (if c == '/' then 1 else 2) <= other) {
      if 7 <= other <= 10 { var i := OpenAt(other, t, m, 0); } else { Facts(other, t[..m]); }
    }
  }

  // A double-quoted value.
  lemma ValueWins(v: string, rest: string)
    requires All(Not({'"', '&'}), v)
    ensures Wins(Initial, "\"" + v + "\"" + rest, 5, |v| + 2)
  {
    hide In, Pattern;
    var t, n := "\"" + v + "\"" + rest, |v| + 2;
    assert t[..n] == "\"" + v + "\"" && t[..n][1..n - 1] == v;
    StringOf(t[..n]);
    forall other, m | Matches(Initial, t, other, m) ensures m < n || (m == n && 5 <= other) {
      if 7 <= other <= 10 {
        var i := OpenAt(other, t, m, 0);
      } else {
        assert m > n ==> t[..m][n - 1] == '"';
        Facts(other, t[..m]);
      }
    }
  }

  // > and the blanks after it, inside a tag.
  lemma CloseWins(w: string, rest: string)
    requires AllWs(w) && !StartsWith(rest, Space)
    ensures Wins(Initial, ">" + w + rest, 3, |w| + 1)
  {
    hide In, Pattern;
    var t, n := ">" + w + rest, |w| + 1;
    assert t[..n][1..] == w;
    CloseOf(t[..n]);
    PatternOf0();
    forall other, m | Matches(Initial, t, other, m) ensures m < n || (m == n && 3 <= other) {
      if 7 <= other <= 10 {
        var i := OpenAt(other, t, m, 0);
      } else {
        assert m > n ==> t[..m][1..][n - 1] == rest[0];
        Facts(other, t[..m]);
      }
    }
  }

  // Character data up to the end of its line.
  lemma DataWins(v: string, rest: string)
    requires v != "" && All(Not({'<', '\n', '&'}), v) && !IsWs(v[0])
    ensures Wins(InContent, v + "\n" + rest, 11, |v|)
  {
    hide In, Pattern;
    var t, n := v + "\n" + rest, |v|;
    assert t[..n] == v;
    PlusOf(Not({'<', '\n', '&'}), t[..n]);
    PatternOf0();
    forall other, m | Matches(InContent, t, other, m) ensures m < n || (m == n && 11 <= other) {
      if 7 <= other <= 10 {
        var i := OpenAt(other, t, m, 0);
      } else {
        assert m > n ==> t[..m][n] == '\n';
        Facts(other, t[..m]);
      }
    }
  }

  // The declaration, with the blanks after it.
  lemma DeclarationWins(mode: Mode, x: string, w: string, rest: string)
    requires x != "" && x[0] != '-' && All(Not({'>'}), x) && AllWs(w) && !StartsWith(rest, Space)
    ensures Wins(mode, "<?" + x + ">" + w + rest, 10, |x| + |w| + 3)
  {
    hide In, Pattern;
    var t, n, b := "<?" + x + ">" + w + rest, |x| + |w| + 3, |x| + 2;
    assert t[..n] == "<?" + x + ">" + w && t[..n][3..b] == x[1..] && t[..n][b + 1..] == w;
    IgnoredOf(t[..n], 0, b);
    assert t[b] == '>' && forall j | 2 <= j < b :: t[j] == x[j - 2];
    assert n < |t| ==> t[n] == rest[0];
    forall other, m | Matches(mode, t, other, m) ensures m < n || (m == n && 10 <= other) {
      if other == 10 { DeclarationBound(t, m, b, n); }
      else if 7 <= other <= 9 { NotAnElement(other, t, m); }
      else { BlanksBound(other, t, m, 0); }
    }
  }

  lemma DeclarationBound(t: string, m: nat, b: nat, n: nat)
    requires m <= |t| && In(Pattern(10), t[..m])
    requires 3 <= b < n <= |t| && t[0] == '<' && t[b] == '>' && forall j | 3 <= j < b :: t[j] != '>'
    requires n < |t| ==> !IsWs(t[n])
    ensures m <= n
  {
    hide In, Pattern;
    var s := t[..m];
    var i, c := IgnoredParts(s);
    WsSlice(s, 0, i);
    NoClosing(s, i + 3, c);
  }

  lemma NotAnElement(other: int, t: string, m: nat)
    requires 7 <= other <= 9 && m <= |t| && |t| >= 2 && t[0] == '<' && t[1] == '?'
    ensures !In(Pattern(other), t[..m])
  {
    hide In, Pattern;
    if !In(Pattern(other), t[..m]) {
    } else if other == 7 {
      var i, c := StartParts(t[..m]);
      WsSlice(t[..m], 0, i);
      WsSlice(t[..m], 1, c);
    } else {
      var i := OpenAt(other, t, m, 0);
      if other == 8 { WsSlice(t, 1, m - 1); }
    }
  }

  lemma NoClosing(s: string, lo: nat, hi: nat)
    requires lo <= hi <= |s| && All(Not({'>'}), s[lo..hi])
    ensures forall i | lo <= i < hi :: s[i] != '>'
  {
    forall i | lo <= i < hi ensures s[i] != '>' { assert s[i] == s[lo..hi][i - lo]; }
  }

  // A comment, with the blanks before and after it.
  lemma CommentWins(mode: Mode, w: string, x: string, v: string, rest: string)
    requires AllWs(w) && x != "" && Undashed(x) && AllWs(v) && !StartsWith(rest, Space)
    ensures Wins(mode, w + "<!--" + x + "-->" + v + rest, 9, |w| + |x| + |v| + 7)
  {
    hide In, Pattern;
    var t, n := w + "<!--" + x + "-->" + v + rest, |w| + |x| + |v| + 7;
    var a, b := |w|, |w| + 4 + |x|;
    CommentAt(w, x, v, rest);
    CommentOf(t[..n], a, b);
    forall other, m | Matches(mode, t, other, m) ensures m < n || (m == n && 9 <= other) {
      if 7 <= other <= 10 { CommentBound(other, t, m, a, b, n); } else { BlanksBound(other, t, m, a); }
    }
  }

  lemma CommentAt(w: string, x: string, v: string, rest: string)
    requires AllWs(w) && x != "" && Undashed(x) && AllWs(v) && !StartsWith(rest, Space)
    ensures
      var (t, n, a, b) := (w + "<!--" + x + "-->" + v + rest, |w| + |x| + |v| + 7, |w|, |w| + 4 + |x|);
      && n <= |t| && IsComment(t[..n], a, b) && AllWs(t[..a])
      && t[a..a + 4] == "<!--" && t[a + 4..b] == x && t[b..b + 3] == "-->" && AllWs(t[b + 3..n])
      && (n < |t| ==> !IsWs(t[n]))
  {
    var t, n, a, b := w + "<!--" + x + "-->" + v + rest, |w| + |x| + |v| + 7, |w|, |w| + 4 + |x|;
    assert t[..a] == w && t[a..a + 4] == "<!--" && t[a + 4..b] == x && t[b..b + 3] == "-->" && t[b + 3..n] == v;
    assert t[..n][..a] == w && t[..n][a..a + 4] == "<!--" && t[..n][a + 4..b] == x && t[..n][b..b + 3] == "-->";
    assert t[..n][b + 3..] == v && (n < |t| ==> t[n] == rest[0]);
  }

  // Before a comment, rules 7 to 10 stop at the end of the blanks after it.
  lemma CommentBound(other: int, t: string, m: nat, a: nat, b: nat, n: nat)
    requires 7 <= other <= 10 && m <= |t| && In(Pattern(other), t[..m])
    requires a + 4 < b && b + 3 <= n <= |t| && AllWs(t[..a]) && t[a..a + 4] == "<!--"
    requires Undashed(t[a + 4..b]) && t[b..b + 3] == "-->" && (n < |t| ==> !IsWs(t[n]))
    ensures m <= n && other == 9
  {
    hide In, Pattern, Undashed, AllWs;
    if other == 9 {
      CommentEnd(t, m, a, b, n);
    } else {
      OnlyComment(other, t, m, a);
    }
  }

  lemma CommentEnd(t: string, m: nat, a: nat, b: nat, n: nat)
    requires m <= |t| && In(Pattern(9), t[..m])
    requires a + 4 < b && b + 3 <= n <= |t| && AllWs(t[..a]) && t[a..a + 4] == "<!--"
    requires Undashed(t[a + 4..b]) && t[b..b + 3] == "-->" && (n < |t| ==> !IsWs(t[n]))
    ensures m <= n
  {
    hide In, Pattern, Undashed;
    var s := t[..m];
    assert t[a] == t[a..a + 4][0];
    var i, c := CommentBody(s);
    WsSlice(s, 0, i);
    assert s[i] == s[i..i + 4][0];
    assert i == a;
    SameEnd(t, m, a, b, c);
    WsSlice(s, b + 3, m);
  }

  lemma OnlyComment(other: int, t: string, m: nat, a: nat)
    requires 7 <= other <= 10 && other != 9 && m <= |t|
    requires a + 4 <= |t| && AllWs(t[..a]) && t[a..a + 4] == "<!--"
    ensures !In(Pattern(other), t[..m])
  {
    hide In, Pattern;
    assert t[a] == t[a..a + 4][0] && t[a + 1] == t[a..a + 4][1] && t[a + 2] == t[a..a + 4][2];
    if !In(Pattern(other), t[..m]) {
    } else if other == 7 {
      var i, c := StartParts(t[..m]);
      WsSlice(t[..m], 0, i);
      WsSlice(t[..m], a + 1, c);
    } else if other == 8 {
      var i := OpenAt(other, t, m, a);
      WsSlice(t, a + 1, m - 1);
    } else {
      var i, c := IgnoredParts(t[..m]);
      WsSlice(t[..m], 0, i);
    }
  }

  // The text of a comment ends at the first two dashes.
  lemma SameEnd(t: string, m: nat, a: nat, b: nat, c: nat)
    requires m <= |t| && a + 4 < b && b + 3 <= |t| && a + 4 < c && c + 3 <= m
    requires Undashed(t[a + 4..b]) && t[b..b + 3] == "-->"
    requires Undashed(t[..m][a + 4..c]) && t[..m][c..c + 3] == "-->"
    ensures b == c
  {
    UndashedSlice(t, a + 4, b);
    UndashedSlice(t[..m], a + 4, c);
    hide Undashed;
    assert t[b] == t[b..b + 3][0] && t[b + 1] == t[b..b + 3][1];
    assert t[..m][c] == t[..m][c..c + 3][0] && t[..m][c + 1] == t[..m][c..c + 3][1];
  }

  lemma UndashedSlice(t: string, lo: nat, hi: nat)
    requires lo <= hi <= |t| && Undashed(t[lo..hi])
    ensures forall i | lo <= i < hi && t[i] == '-' :: i + 1 < hi && t[i + 1] != '-'
  {
    forall i | lo <= i < hi && t[i] == '-' ensures i + 1 < hi && t[i + 1] != '-' {
      assert t[lo..hi][i - lo] == t[i];
    }
  }
}
