/** The program compiler: a program's text is cut into lines, each line into
    whitespace-separated tokens, and every line that yields a 5-tuple becomes
    a rule in a two-level map from state to symbol to rule. */
module TuringProgram {

  datatype Option<T> = None | Some(value: T)

  /** The wildcard: in a rule's key it matches any state or symbol, and as a
      rule's new state or new symbol it means "keep the current one". */
  const Wildcard: char := '*'
  const AnyState: string := "*"

  /** One parsed program line. */
  datatype Tuple = Tuple(currentState: string, currentSymbol: char, newSymbol: char,
                         action: char, newState: string)

  /** A stored rule, with the 0-based index of the line it came from. */
  datatype Rule = Rule(newSymbol: char, action: char, newState: string, sourceLineNumber: nat)

  type Program = map<string, map<char, Rule>>

  // ---------------------------------------------------------------- text

  /** Tokens are separated by runs of spaces and tabs. */
  predicate IsSep(c: char) {
    c == ' ' || c == '\t'
  }

  predicate SepFree(s: string) {
    forall i :: 0 <= i < |s| ==> !IsSep(s[i])
  }

  /** The index of the first `x` in `s`, or |s| when there is none. */
  function IndexOf(s: string, x: char): (i: nat)
    ensures i <= |s|
    ensures forall j :: 0 <= j < i ==> s[j] != x
    ensures i < |s| ==> s[i] == x
  {
    if s == [] || s[0] == x then 0 else 1 + IndexOf(s[1..], x)
  }

  /** The tokens of `s` split at every run of spaces and tabs: a leading run
      gives an empty first token and a trailing run an empty last token. */
  function Tokens(s: string): (ts: seq<string>)
    ensures |ts| >= 1
  {
    if s == [] then [[]]
    else
      var ts := Tokens(s[1..]);
      if !IsSep(s[0]) then [[s[0]] + ts[0]] + ts[1..]
      else if |s| > 1 && IsSep(s[1]) then ts
      else [[]] + ts
  }

  /** Words joined by single spaces. */
  function JoinWords(ws: seq<string>): (s: string)
    requires |ws| >= 1
    ensures |ws[0]| <= |s| && s[..|ws[0]|] == ws[0]
  {
    if |ws| == 1 then ws[0] else ws[0] + " " + JoinWords(ws[1..])
  }

  /** The text of a line before its first `;`: what remains once the
      comment is cut off. */
  function BeforeComment(line: string): (code: string)
    ensures ';' !in code
    ensures code == line || (|code| < |line| && line[..|code| + 1] == code + ";")
  {
    line[..IndexOf(line, ';')]
  }

  /** `s` with every carriage return removed. */
  function StripCR(s: string): (r: string)
    ensures '\r' !in r
    ensures |r| <= |s|
    ensures '\r' !in s ==> r == s
  {
    if s == [] then []
    else (if s[0] == '\r' then [] else [s[0]]) + StripCR(s[1..])
  }

  /** The lines of `s`, split at every newline. */
  function SplitLines(s: string): (lines: seq<string>)
    ensures |lines| >= 1
    ensures forall k :: 0 <= k < |lines| ==> '\n' !in lines[k]
  {
    if s == [] then [[]]
    else
      var ls := SplitLines(s[1..]);
      if s[0] == '\n' then [[]] + ls else [[s[0]] + ls[0]] + ls[1..]
  }

  function JoinLines(lines: seq<string>): string
    requires |lines| >= 1
  {
    if |lines| == 1 then lines[0] else lines[0] + "\n" + JoinLines(lines[1..])
  }

  // ---------------------------------------------------------------- lines

  /** What the tokens of a parsed line must look like: non-empty state
      names, and no separator and no `;` anywhere. */
  predicate WellFormed(t: Tuple) {
    && t.currentState != [] && t.newState != []
    && SepFree(t.currentState) && SepFree(t.newState)
    && ';' !in t.currentState && ';' !in t.newState
    && !IsSep(t.currentSymbol) && !IsSep(t.newSymbol) && !IsSep(t.action)
    && t.currentSymbol != ';' && t.newSymbol != ';' && t.action != ';'
  }

  /** The five fields of a tuple, as the tokens of a line. */
  function Fields(t: Tuple): seq<string> {
    [t.currentState, [t.currentSymbol], [t.newSymbol], [t.action], t.newState]
  }

  /** The canonical text of a tuple. */
  function Format(t: Tuple): string {
    JoinWords(Fields(t))
  }

  /** One program line: None unless the text before the comment has at
      least five tokens of which the first five are non-empty; otherwise
      tokens 0 and 4 verbatim, the first character of tokens 1 to 3, and
      every later token ignored. */
  function ParseLine(line: string): (r: Option<Tuple>)
    ensures r.Some? ==> r.value.currentState != [] && r.value.newState != []
  {
    var code := BeforeComment(line);
    var ts := Tokens(code);
    if |ts| < 5 then None
    else if ts[0] == [] || ts[1] == [] || ts[2] == [] || ts[3] == [] || ts[4] == [] then None
    else Some(Tuple(ts[0], ts[1][0], ts[2][0], ts[3][0], ts[4]))
  }

  /** An accepted line yields a well-formed tuple: non-empty state names and
      no field holding a space, a tab or `;`. */
  lemma ParseLineWellFormed(line: string)
    ensures ParseLine(line).Some? ==> WellFormed(ParseLine(line).value)
  {
    var code := BeforeComment(line);
    TokensSepFree(code);
    TokensAvoid(code, ';');
  }

  // ---------------------------------------------------------------- programs

  /** `p` with the rule of tuple `t` from line `line` stored under its key,
      replacing any rule stored there before. */
  function Install(p: Program, t: Tuple, line: nat): (r: Program)
    ensures r.Keys == p.Keys + {t.currentState}
    ensures t.currentState in p ==> r[t.currentState].Keys == p[t.currentState].Keys + {t.currentSymbol}
    ensures t.currentSymbol in r[t.currentState]
    ensures r[t.currentState][t.currentSymbol] == Rule(t.newSymbol, t.action, t.newState, line)
    ensures forall s, c :: s in p && c in p[s] && (s != t.currentState || c != t.currentSymbol) ==>
              s in r && c in r[s] && r[s][c] == p[s][c]
    ensures forall s :: s in r ==>
              r[s].Keys == (if s in p then p[s].Keys else {}) + (if s == t.currentState then {t.currentSymbol} else {})
  {
    var row := if t.currentState in p then p[t.currentState] else map[];
    p[t.currentState := row[t.currentSymbol := Rule(t.newSymbol, t.action, t.newState, line)]]
  }

  /** The parse of every line, in order. */
  function ParseAll(lines: seq<string>): (parsed: seq<Option<Tuple>>) {
    seq(|lines|, i requires 0 <= i < |lines| => ParseLine(lines[i]))
  }

  /** The program built from the first `k` parsed lines. */
  function CompilePrefix(parsed: seq<Option<Tuple>>, k: nat): Program
    requires k <= |parsed|
  {
    if k == 0 then map[]
    else if parsed[k - 1].None? then CompilePrefix(parsed, k - 1)
    else Install(CompilePrefix(parsed, k - 1), parsed[k - 1].value, k - 1)
  }

  /** Compiling one more line installs that line's rule, if it has one. */
  lemma CompilePrefixNext(parsed: seq<Option<Tuple>>, k: nat)
    requires k < |parsed|
    ensures parsed[k].None? ==> CompilePrefix(parsed, k + 1) == CompilePrefix(parsed, k)
    ensures parsed[k].Some? ==>
              CompilePrefix(parsed, k + 1) == Install(CompilePrefix(parsed, k), parsed[k].value, k)
  {
  }

  /** The program compiled from a whole source text. */
  function Compiled(source: string): Program {
    var parsed := ParseAll(SplitLines(StripCR(source)));
    CompilePrefix(parsed, |parsed|)
  }

  /** Line `i` parsed to a rule for state `s` and symbol `c`. */
  predicate Defines(parsed: seq<Option<Tuple>>, i: int, s: string, c: char) {
    && 0 <= i < |parsed|
    && parsed[i].Some?
    && parsed[i].value.currentState == s
    && parsed[i].value.currentSymbol == c
  }

  // ---------------------------------------------------------------- lemmas

  /** An index meeting IndexOf's contract is its result. */
  lemma IndexOfIs(s: string, x: char, i: nat)
    requires i <= |s|
    requires forall j :: 0 <= j < i ==> s[j] != x
    requires i < |s| ==> s[i] == x
    ensures IndexOf(s, x) == i
  {
  }

  /** Every token is free of separators. */
  lemma {:induction false} TokensSepFree(s: string)
    ensures forall k :: 0 <= k < |Tokens(s)| ==> SepFree(Tokens(s)[k])
  {
    if s != [] {
      TokensSepFree(s[1..]);
    }
  }

  /** A character absent from the text is absent from every token. */
  lemma {:induction false} TokensAvoid(s: string, x: char)
    requires x !in s
    ensures forall k :: 0 <= k < |Tokens(s)| ==> x !in Tokens(s)[k]
  {
    if s != [] {
      assert x !in s[1..];
      TokensAvoid(s[1..], x);
    }
  }

  /** The first token is empty exactly when the text is empty or starts with
      a separator; the last exactly when it is empty or ends with one; and
      there is a single token exactly when the text has no separator. */
  lemma {:induction false} TokensEnds(s: string)
    ensures Tokens(s)[0] == [] <==> (s == [] || IsSep(s[0]))
    ensures Tokens(s)[|Tokens(s)| - 1] == [] <==> (s == [] || IsSep(s[|s| - 1]))
    ensures |Tokens(s)| == 1 <==> SepFree(s)
  {
    if s != [] {
      var t := s[1..];
      TokensEnds(t);
      var ts, tt := Tokens(s), Tokens(t);
      if !IsSep(s[0]) {
        assert ts == [[s[0]] + tt[0]] + tt[1..];
      } else if |s| > 1 && IsSep(s[1]) {
        assert ts == tt;
      } else {
        assert ts == [[]] + tt;
      }
      if t != [] {
        assert s[|s| - 1] == t[|t| - 1];
        assert SepFree(s) <==> !IsSep(s[0]) && SepFree(t) by {
          if !IsSep(s[0]) && SepFree(t) {
            forall i | 0 <= i < |s| ensures !IsSep(s[i]) {
              if i > 0 { assert s[i] == t[i - 1]; }
            }
          }
        }
      }
    }
  }

  /** Only the first and the last token can be empty. */
  lemma {:induction false} TokensInterior(s: string)
    ensures forall k :: 0 < k < |Tokens(s)| - 1 ==> Tokens(s)[k] != []
  {
    if s != [] {
      var t := s[1..];
      TokensInterior(t);
      TokensEnds(t);
      var ts := Tokens(s);
      var tt := Tokens(t);
      if !IsSep(s[0]) {
        forall k | 0 < k < |ts| - 1 ensures ts[k] != [] {
          assert ts[k] == tt[k];
        }
      } else if |s| > 1 && IsSep(s[1]) {
        assert ts == tt;
      } else {
        forall k | 0 < k < |ts| - 1 ensures ts[k] != [] {
          assert ts[k] == tt[k - 1];
        }
      }
    }
  }

  /** A separator-free word in front of a text joins that text's first token. */
  lemma {:induction false} TokensPrefix(w: string, rest: string)
    requires SepFree(w)
    ensures Tokens(w + rest) == [w + Tokens(rest)[0]] + Tokens(rest)[1..]
  {
    var tr := Tokens(rest);
    if w == [] {
      assert w + rest == rest;
      assert w + tr[0] == tr[0];
      assert tr == [tr[0]] + tr[1..];
    } else {
      var u := w + rest;
      assert u[0] == w[0] && !IsSep(u[0]);
      assert u[1..] == w[1..] + rest;
      assert SepFree(w[1..]) by {
        forall i | 0 <= i < |w[1..]| ensures !IsSep(w[1..][i]) {
          assert w[1..][i] == w[i + 1];
        }
      }
      TokensPrefix(w[1..], rest);
      var tu := Tokens(u[1..]);
      assert tu[0] == w[1..] + tr[0] && tu[1..] == tr[1..];
      assert Tokens(u) == [[u[0]] + tu[0]] + tu[1..];
      assert [w[0]] + (w[1..] + tr[0]) == w + tr[0];
    }
  }

  /** A word, one space and a text that starts with a non-separator split
      into the word followed by the text's tokens. */
  lemma TokensWordSpace(w: string, tail: string)
    requires SepFree(w)
    requires tail != [] && !IsSep(tail[0])
    ensures Tokens(w + (" " + tail)) == [w] + Tokens(tail)
  {
    assert (" " + tail)[1..] == tail;
    var t0 := Tokens(" " + tail);
    assert t0 == [[]] + Tokens(tail);
    TokensPrefix(w, " " + tail);
    assert w + t0[0] == w;
  }

  /** Splitting words joined by single spaces gives back the words; what
      follows after a separator only adds tokens at the end. */
  lemma {:induction false} TokensOfJoin(ws: seq<string>, rest: string)
    requires |ws| >= 1
    requires forall k :: 0 <= k < |ws| ==> ws[k] != [] && SepFree(ws[k])
    requires rest == [] || IsSep(rest[0])
    ensures Tokens(JoinWords(ws) + rest) == ws + Tokens(rest)[1..]
  {
    if |ws| == 1 {
      TokensOfWord(ws[0], rest);
      assert JoinWords(ws) == ws[0] && ws == [ws[0]];
    } else {
      var later := ws[1..];
      forall k | 0 <= k < |later| ensures later[k] != [] && SepFree(later[k]) {
        assert later[k] == ws[k + 1];
      }
      var tail := JoinWords(later) + rest;
      JoinWordsCons(ws, rest);
      TokensWordSpace(ws[0], tail);
      TokensOfJoin(later, rest);
      var more := Tokens(rest)[1..];
      assert Tokens(JoinWords(ws) + rest) == [ws[0]] + (later + more);
      assert ws == [ws[0]] + later;
      assert [ws[0]] + (later + more) == ws + more;
    }
  }

  /** A single word followed by a separator or nothing is one token. */
  lemma TokensOfWord(w: string, rest: string)
    requires SepFree(w)
    requires rest == [] || IsSep(rest[0])
    ensures Tokens(w + rest) == [w] + Tokens(rest)[1..]
  {
    TokensEnds(rest);
    TokensPrefix(w, rest);
    assert w + Tokens(rest)[0] == w;
  }

  /** Joined words are the first word, a space, and the joined rest, which
      starts with the first letter of the second word. */
  lemma JoinWordsCons(ws: seq<string>, rest: string)
    requires |ws| >= 2 && ws[1] != []
    ensures JoinWords(ws) + rest == ws[0] + (" " + (JoinWords(ws[1..]) + rest))
    ensures (JoinWords(ws[1..]) + rest)[0] == ws[1][0]
  {
    var joined := JoinWords(ws[1..]);
    assert JoinWords(ws) == ws[0] + " " + joined;
    assert ws[1..][0] == ws[1] && joined[..|ws[1]|] == ws[1];
  }

  /** A character that is no word's and not a space is not in the joined text. */
  lemma {:induction false} JoinWordsAvoids(ws: seq<string>, x: char)
    requires |ws| >= 1
    requires x != ' '
    requires forall k :: 0 <= k < |ws| ==> x !in ws[k]
    ensures x !in JoinWords(ws)
  {
    if |ws| > 1 {
      JoinWordsAvoids(ws[1..], x);
      assert JoinWords(ws) == ws[0] + " " + JoinWords(ws[1..]);
    }
  }

  /** Cutting at the first `;` skips a prefix that has none. */
  lemma BeforeCommentAfter(a: string, b: string)
    requires ';' !in a
    ensures BeforeComment(a + b) == a + BeforeComment(b)
  {
    var j := IndexOf(b, ';');
    IndexOfIs(a + b, ';', |a| + j);
    assert (a + b)[..|a| + j] == a + b[..j];
  }

  /** A line is accepted exactly when, before its comment, it does not start
      with a separator and has at least five non-empty tokens: five or more
      tokens, the fifth non-empty when it is also the last. */
  lemma ParseLineAcceptance(line: string)
    ensures var code := BeforeComment(line);
            var ts := Tokens(code);
            ParseLine(line).Some? <==>
              (|ts| >= 5 && code != [] && !IsSep(code[0]) && (|ts| > 5 || !IsSep(code[|code| - 1])))
  {
    var code := BeforeComment(line);
    TokensEnds(code);
    TokensInterior(code);
  }

  /** A line of five or more words joined by single spaces parses to its
      first five words, whatever comment or extra tokens follow: words 0
      and 4 are kept whole, words 1 to 3 give their first character. */
  lemma ParseLineOfWords(ws: seq<string>, tail: string)
    requires |ws| >= 5
    requires forall k :: 0 <= k < |ws| ==> ws[k] != [] && SepFree(ws[k]) && ';' !in ws[k]
    requires tail == [] || tail[0] == ';' || IsSep(tail[0])
    ensures ParseLine(JoinWords(ws) + tail) == Some(Tuple(ws[0], ws[1][0], ws[2][0], ws[3][0], ws[4]))
  {
    JoinWordsAvoids(ws, ';');
    BeforeCommentAfter(JoinWords(ws), tail);
    var rest := BeforeComment(tail);
    assert rest == [] || IsSep(rest[0]) by {
      if rest != [] {
        assert rest[0] == tail[0];
      }
    }
    TokensOfJoin(ws, rest);
    var ts := Tokens(JoinWords(ws) + rest);
    assert ts[..|ws|] == ws;
  }

  /** Parsing the canonical text of a well-formed tuple gives the tuple back,
      whatever comment or extra tokens follow it. */
  lemma ParseLineRoundTrip(t: Tuple, tail: string)
    requires WellFormed(t)
    requires tail == [] || tail[0] == ';' || IsSep(tail[0])
    ensures ParseLine(Format(t) + tail) == Some(t)
  {
    var ws := Fields(t);
    forall k | 0 <= k < 5 ensures ws[k] != [] && SepFree(ws[k]) && ';' !in ws[k] {
    }
    ParseLineOfWords(ws, tail);
  }

  /** A non-empty run of spaces and tabs before a word or the end of the
      text splits off one empty token, like a single space. */
  lemma {:induction false} TokensRun(run: string, b: string)
    requires run != [] && forall i :: 0 <= i < |run| ==> IsSep(run[i])
    requires b == [] || !IsSep(b[0])
    ensures Tokens(run + b) == [[]] + Tokens(b)
  {
    var u := run + b;
    assert u[0] == run[0];
    if |run| == 1 {
      assert u[1..] == b;
    } else {
      assert u[1] == run[1];
      assert u[1..] == run[1..] + b;
      TokensRun(run[1..], b);
    }
  }

  /** Wherever it stands, a run of spaces and tabs followed by a word or the
      end of the text splits exactly like one space. */
  lemma {:induction false} TokensRunLikeSpace(a: string, run: string, b: string)
    requires run != [] && forall i :: 0 <= i < |run| ==> IsSep(run[i])
    requires b == [] || !IsSep(b[0])
    ensures Tokens(a + (run + b)) == Tokens(a + (" " + b))
  {
    if a == [] {
      assert a + (run + b) == run + b && a + (" " + b) == " " + b;
      TokensRun(run, b);
      TokensRun(" ", b);
    } else {
      var u, v := a + (run + b), a + (" " + b);
      assert u[0] == v[0] == a[0];
      assert u[1..] == a[1..] + (run + b);
      assert v[1..] == a[1..] + (" " + b);
      TokensRunLikeSpace(a[1..], run, b);
      if |a| > 1 {
        assert u[1] == a[1] && v[1] == a[1];
      } else {
        assert u[1] == run[0] && v[1] == ' ';
      }
    }
  }

  /** In a line, a run of spaces and tabs before a word, a comment or the end
      of the line parses exactly like one space. */
  lemma ParseLineRunLikeSpace(a: string, run: string, b: string)
    requires ';' !in a
    requires run != [] && forall i :: 0 <= i < |run| ==> IsSep(run[i])
    requires b == [] || !IsSep(b[0])
    ensures ParseLine(a + (run + b)) == ParseLine(a + (" " + b))
  {
    assert ';' !in run && ';' !in " ";
    BeforeCommentAfter(a, run + b);
    BeforeCommentAfter(run, b);
    BeforeCommentAfter(a, " " + b);
    BeforeCommentAfter(" ", b);
    var bc := BeforeComment(b);
    assert bc == [] || !IsSep(bc[0]) by {
      if bc != [] {
        assert bc[0] == b[0];
      }
    }
    TokensRunLikeSpace(a, run, bc);
  }

  /** Splitting at newlines and joining back gives the text back. */
  lemma {:induction false} SplitLinesRoundTrip(s: string)
    ensures JoinLines(SplitLines(s)) == s
  {
    if s != [] {
      var ls := SplitLines(s[1..]);
      SplitLinesRoundTrip(s[1..]);
      if s[0] == '\n' {
        assert JoinLines(SplitLines(s)) == [] + "\n" + JoinLines(ls);
      } else if |ls| == 1 {
        assert JoinLines(SplitLines(s)) == [s[0]] + ls[0];
      } else {
        assert SplitLines(s)[1..] == ls[1..];
        assert JoinLines(SplitLines(s)) == [s[0]] + (ls[0] + "\n" + JoinLines(ls[1..]));
      }
      assert s == [s[0]] + s[1..];
    }
  }

  /** A newline-free line in front of a text joins that text's first line. */
  lemma {:induction false} SplitLinesPrefix(w: string, rest: string)
    requires '\n' !in w
    ensures SplitLines(w + rest) == [w + SplitLines(rest)[0]] + SplitLines(rest)[1..]
  {
    var lr := SplitLines(rest);
    if w == [] {
      assert w + rest == rest;
      assert w + lr[0] == lr[0];
      assert lr == [lr[0]] + lr[1..];
    } else {
      var u := w + rest;
      assert u[0] == w[0] && u[0] != '\n';
      assert u[1..] == w[1..] + rest;
      SplitLinesPrefix(w[1..], rest);
      var lu := SplitLines(u[1..]);
      assert lu[0] == w[1..] + lr[0] && lu[1..] == lr[1..];
      assert SplitLines(u) == [[u[0]] + lu[0]] + lu[1..];
      assert [w[0]] + (w[1..] + lr[0]) == w + lr[0];
    }
  }

  /** Joining newline-free lines and splitting again gives the lines back. */
  lemma {:induction false} JoinLinesRoundTrip(lines: seq<string>)
    requires |lines| >= 1
    requires forall k :: 0 <= k < |lines| ==> '\n' !in lines[k]
    ensures SplitLines(JoinLines(lines)) == lines
  {
    if |lines| == 1 {
      SplitLinesPrefix(lines[0], []);
      assert lines[0] + [] == lines[0] && SplitLines([]) == [[]];
      assert lines[0] + [] + [] == lines[0];
    } else {
      var tail := JoinLines(lines[1..]);
      assert JoinLines(lines) == lines[0] + ("\n" + tail);
      assert ("\n" + tail)[1..] == tail;
      var l0 := SplitLines("\n" + tail);
      assert l0 == [[]] + SplitLines(tail);
      SplitLinesPrefix(lines[0], "\n" + tail);
      assert lines[0] + l0[0] == lines[0];
      assert SplitLines(JoinLines(lines)) == [lines[0]] + SplitLines(tail);
      JoinLinesRoundTrip(lines[1..]);
      assert lines == [lines[0]] + lines[1..];
    }
  }

  /** The rule stored for a state and a symbol comes from the LAST line that
      defines that key, and it records that line's index; a key is present
      exactly when some line defines it. */
  lemma {:induction false} CompileLastWins(parsed: seq<Option<Tuple>>, k: nat, s: string, c: char)
    requires k <= |parsed|
    ensures var p := CompilePrefix(parsed, k);
            (s in p && c in p[s]) <==> exists i :: 0 <= i < k && Defines(parsed, i, s, c)
    ensures var p := CompilePrefix(parsed, k);
            s in p && c in p[s] ==>
              var i := p[s][c].sourceLineNumber;
              && i < k && Defines(parsed, i, s, c)
              && p[s][c] == Rule(parsed[i].value.newSymbol, parsed[i].value.action, parsed[i].value.newState, i)
              && forall j :: i < j < k ==> !Defines(parsed, j, s, c)
  {
    if k > 0 {
      CompileLastWins(parsed, k - 1, s, c);
      var p: Program := CompilePrefix(parsed, k);
      var q: Program := CompilePrefix(parsed, k - 1);
      match parsed[k - 1]
      case None =>
        assert p == q;
      case Some(t) =>
        assert p == Install(q, t, k - 1);
        if t.currentState == s && t.currentSymbol == c {
          assert Defines(parsed, k - 1, s, c);
        } else {
          assert (s in p && c in p[s]) <==> (s in q && c in q[s]);
          if s in q && c in q[s] {
            assert p[s][c] == q[s][c];
          }
        }
    }
  }

  /** Two lines with the same key compile to the second: the program of a
      source made of two such lines holds only the rule of line 1. */
  lemma CompileRedefinition(first: Tuple, second: Tuple)
    requires WellFormed(first) && WellFormed(second)
    requires first.currentState == second.currentState && first.currentSymbol == second.currentSymbol
    requires '\n' !in Format(first) && '\n' !in Format(second)
    requires '\r' !in Format(first) && '\r' !in Format(second)
    ensures Compiled(Format(first) + "\n" + Format(second)) ==
              map[second.currentState := map[second.currentSymbol :=
                    Rule(second.newSymbol, second.action, second.newState, 1)]]
  {
    var lines := [Format(first), Format(second)];
    TwoLines(Format(first), Format(second));
    ParseLineRoundTrip(first, []);
    ParseLineRoundTrip(second, []);
    assert Format(first) + [] == Format(first) && Format(second) + [] == Format(second);
    assert ParseAll(lines) == [Some(first), Some(second)];
    CompileTwice(first, second);
  }

  /** Two lines free of newlines and carriage returns, joined by a newline,
      split back into those two lines. */
  lemma TwoLines(a: string, b: string)
    requires '\n' !in a && '\n' !in b && '\r' !in a && '\r' !in b
    ensures SplitLines(StripCR(a + "\n" + b)) == [a, b]
  {
    var lines := [a, b];
    assert JoinLines(lines) == a + "\n" + b;
    JoinLinesRoundTrip(lines);
    assert '\r' !in a + "\n" + b;
  }

  /** Two parsed rules for the same key compile to the second one alone. */
  lemma CompileTwice(first: Tuple, second: Tuple)
    requires first.currentState == second.currentState && first.currentSymbol == second.currentSymbol
    ensures CompilePrefix([Some(first), Some(second)], 2) ==
              map[second.currentState := map[second.currentSymbol :=
                    Rule(second.newSymbol, second.action, second.newState, 1)]]
  {
    var parsed := [Some(first), Some(second)];
    CompilePrefixNext(parsed, 0);
    CompilePrefixNext(parsed, 1);
    var one := Install(map[], first, 0);
    assert one == map[first.currentState := map[first.currentSymbol := Rule(first.newSymbol, first.action, first.newState, 0)]];
    InstallReplaces(one, second, 1);
  }

  /** Installing over a program with a single rule under the same key
      leaves only the new rule. */
  lemma InstallReplaces(p: Program, t: Tuple, line: nat)
    requires p.Keys == {t.currentState} && p[t.currentState].Keys == {t.currentSymbol}
    ensures Install(p, t, line) ==
              map[t.currentState := map[t.currentSymbol := Rule(t.newSymbol, t.action, t.newState, line)]]
  {
    var row := p[t.currentState][t.currentSymbol := Rule(t.newSymbol, t.action, t.newState, line)];
    assert row == map[t.currentSymbol := Rule(t.newSymbol, t.action, t.newState, line)];
    assert p[t.currentState := row] == map[t.currentState := row];
  }

  /** Removing carriage returns works piece by piece. */
  lemma {:induction false} StripCRAppend(a: string, b: string)
    ensures StripCR(a + b) == StripCR(a) + StripCR(b)
  {
    if a != [] {
      assert (a + b)[0] == a[0] && (a + b)[1..] == a[1..] + b;
      StripCRAppend(a[1..], b);
    } else {
      assert a + b == b;
    }
  }

  /** Every carriage return is dropped and every other character is kept,
      in order. */
  lemma StripCRChar(a: string, x: char, b: string)
    ensures StripCR(a + [x] + b) == StripCR(a) + (if x == '\r' then [] else [x]) + StripCR(b)
  {
    StripCRAppend(a + [x], b);
    StripCRAppend(a, [x]);
    assert [x][1..] == [];
  }

  /** A carriage return anywhere in the source changes nothing in the
      compiled program, so "\r\n" line ends compile like "\n". */
  lemma CompiledIgnoresCR(a: string, b: string)
    ensures Compiled(a + ['\r'] + b) == Compiled(a + b)
  {
    StripCRChar(a, '\r', b);
    StripCRAppend(a, b);
    assert StripCR(a) + [] + StripCR(b) == StripCR(a) + StripCR(b);
    assert StripCR(a + ['\r'] + b) == StripCR(a + b);
  }
}
