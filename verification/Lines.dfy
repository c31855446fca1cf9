/** Splitting text at LF or CRLF, and joining it again. */
module Lines {

  predicate IsBlank(c: char) {
    c == ' ' || c == '\t'
  }

  /** The characters `.` does not match. */
  predicate IsLineTerminator(c: char) {
    c == '\n' || c == '\r' || c == '\U{2028}' || c == '\U{2029}'
  }

  /** White space in the sense of `trim`. */
  predicate IsSpace(c: char) {
    || IsBlank(c) || IsLineTerminator(c) || c == '\U{000B}' || c == '\U{000C}' || c == '\U{00A0}' || c == '\U{FEFF}'
    || c == '\U{1680}' || '\U{2000}' <= c <= '\U{200A}' || c == '\U{202F}' || c == '\U{205F}' || c == '\U{3000}'
  }

  /** The code points that `trim` removes. */
  lemma {:induction false} SpaceIff(c: char)
    ensures IsSpace(c) <==> 9 <= c as int <= 13 || 8192 <= c as int <= 8202
                            || c as int in {32, 160, 5760, 8232, 8233, 8239, 8287, 12288, 65279}
  {
  }

  predicate IsEmptyLine(line: string) {
    forall i :: 0 <= i < |line| ==> IsSpace(line[i])
  }

  function NewlineIndex(t: string): (n: nat)
    ensures n <= |t| && (n < |t| ==> t[n] == '\n') && forall i :: 0 <= i < n ==> t[i] != '\n'
  {
    if t == "" || t[0] == '\n' then 0 else 1 + NewlineIndex(t[1..])
  }

  predicate EndsInCr(s: string) {
    s != "" && s[|s| - 1] == '\r'
  }

  function StripCr(s: string): string {
    if EndsInCr(s) then s[..|s| - 1] else s
  }

  function StripAll(lines: seq<string>): (r: seq<string>)
    ensures |r| == |lines| && forall i :: 0 <= i < |r| ==> r[i] == StripCr(lines[i])
  {
    if lines == [] then [] else [StripCr(lines[0])] + StripAll(lines[1..])
  }

  lemma {:induction false} StripAllAppend(a: seq<string>, b: seq<string>)
    ensures StripAll(a + b) == StripAll(a) + StripAll(b)
  {
    forall i | 0 <= i < |a + b| ensures StripAll(a + b)[i] == (StripAll(a) + StripAll(b))[i] {
    }
  }

  /** Stripping reaches what follows a prefix that does not itself end in a carriage return. */
  lemma {:induction false} StripAfter(prefix: string, s: string)
    requires prefix != "" && !EndsInCr(prefix)
    ensures StripCr(prefix + s) == prefix + StripCr(s)
  {
    var t := prefix + s;
    if s == "" {
      assert t == prefix;
    } else {
      assert t[|t| - 1] == s[|s| - 1];
      assert EndsInCr(s) ==> t[..|t| - 1] == prefix + s[..|s| - 1];
    }
  }

  /** The lines of a text; both line ends separate, and a text has at least one line. */
  function Split(t: string): (r: seq<string>)
    ensures |r| >= 1
    decreases |t|
  {
    var n := NewlineIndex(t);
    if n == |t| then [t] else [StripCr(t[..n])] + Split(t[n + 1..])
  }

  function Join(lines: seq<string>, newline: string): string {
    if lines == [] then ""
    else if |lines| == 1 then lines[0]
    else lines[0] + newline + Join(lines[1..], newline)
  }

  ghost predicate IsNewline(nl: string) {
    nl == "\n" || nl == "\r\n"
  }

  /** Lines that joining with `nl` keeps apart. */
  ghost predicate Separable(lines: seq<string>, nl: string) {
    && lines != []
    && (forall i :: 0 <= i < |lines| ==> '\n' !in lines[i])
    && (nl == "\n" ==> forall i :: 0 <= i < |lines| - 1 ==> !EndsInCr(lines[i]))
  }

  lemma {:induction false} FirstLine(line: string, nl: string, rest: string)
    requires IsNewline(nl) && '\n' !in line && (nl == "\n" ==> !EndsInCr(line))
    ensures Split(line + nl + rest) == [line] + Split(rest)
  {
    var t := line + nl + rest;
    var n := |line| + |nl| - 1;
    assert t[n] == '\n';
    forall i | 0 <= i < n ensures t[i] != '\n' {
      if i < |line| {
        assert t[i] == line[i];
      }
    }
    assert NewlineIndex(t) == n;
    assert t[n + 1..] == rest;
    if nl == "\n" {
      assert t[..n] == line;
    } else {
      assert t[..n] == line + "\r";
      assert (line + "\r")[..|line|] == line;
    }
  }

  /** Splitting inverts joining. */
  lemma {:induction false} SplitJoin(lines: seq<string>, nl: string)
    requires IsNewline(nl) && Separable(lines, nl)
    ensures Split(Join(lines, nl)) == lines
  {
    if |lines| == 1 {
      assert NewlineIndex(lines[0]) == |lines[0]|;
    } else {
      assert Separable(lines[1..], nl) by {
        forall i | 0 <= i < |lines[1..]| ensures '\n' !in lines[1..][i] {
          assert lines[1..][i] == lines[i + 1];
        }
      }
      SplitJoin(lines[1..], nl);
      FirstLine(lines[0], nl, Join(lines[1..], nl));
    }
  }

  ghost predicate NoLineFeeds(lines: seq<string>) {
    forall i :: 0 <= i < |lines| ==> '\n' !in lines[i]
  }

  /** Splitting lines joined by line feeds costs every line but the last a carriage return at its end. */
  lemma {:induction false} SplitJoinLf(lines: seq<string>, last: string)
    requires NoLineFeeds(lines) && '\n' !in last
    ensures Split(Join(lines + [last], "\n")) == StripAll(lines) + [last]
  {
    if lines == [] {
      assert Join([last], "\n") == last;
      assert NewlineIndex(last) == |last|;
    } else {
      var rest := lines[1..] + [last];
      assert Split(Join(rest, "\n")) == StripAll(lines[1..]) + [last] by {
        SplitJoinLf(lines[1..], last);
      }
      assert Split(Join([lines[0]] + rest, "\n")) == [StripCr(lines[0])] + Split(Join(rest, "\n")) by {
        SplitFirstLf(lines[0], rest);
      }
      assert lines + [last] == [lines[0]] + rest;
      assert StripAll(lines) + [last] == [StripCr(lines[0])] + (StripAll(lines[1..]) + [last]);
    }
  }

  lemma {:induction false} SplitFirstLf(first: string, rest: seq<string>)
    requires '\n' !in first && rest != []
    ensures Split(Join([first] + rest, "\n")) == [StripCr(first)] + Split(Join(rest, "\n"))
  {
    JoinFirst(first, rest, "\n");
    FirstLineLf(first, Join(rest, "\n"));
  }

  lemma {:induction false} FirstLineLf(line: string, rest: string)
    requires '\n' !in line
    ensures Split(line + "\n" + rest) == [StripCr(line)] + Split(rest)
  {
    var t := line + "\n" + rest;
    assert t[|line|] == '\n';
    forall i | 0 <= i < |line| ensures t[i] != '\n' {
      assert t[i] == line[i];
    }
    assert NewlineIndex(t) == |line|;
    assert t[..|line|] == line && t[|line| + 1..] == rest;
  }

  lemma {:induction false} SplitLines(t: string)
    ensures forall i :: 0 <= i < |Split(t)| ==> '\n' !in Split(t)[i]
    decreases |t|
  {
    var n := NewlineIndex(t);
    if n < |t| {
      SplitLines(t[n + 1..]);
    }
  }

  predicate HasCrLf(t: string) {
    exists i :: 0 <= i < |t| - 1 && t[i] == '\r' && t[i + 1] == '\n'
  }

  /** The line end a rewritten text uses. */
  function NewlineOf(t: string): string {
    if HasCrLf(t) then "\r\n" else "\n"
  }

  /** Every line feed is preceded by a carriage return, or none is. */
  ghost predicate UniformNewlines(t: string) {
    HasCrLf(t) ==> forall i :: 0 <= i < |t| && t[i] == '\n' ==> i > 0 && t[i - 1] == '\r'
  }

  ghost predicate AllCrLf(t: string) {
    forall i :: 0 <= i < |t| && t[i] == '\n' ==> i > 0 && t[i - 1] == '\r'
  }

  lemma {:induction false} FirstLf(t: string)
    requires !HasCrLf(t) && NewlineIndex(t) < |t|
    ensures var n := NewlineIndex(t);
      !HasCrLf(t[n + 1..]) && !EndsInCr(t[..n]) && Split(t) == [t[..n]] + Split(t[n + 1..])
  {
    var n := NewlineIndex(t);
    var rest := t[n + 1..];
    forall i | 0 <= i < |rest| - 1 ensures !(rest[i] == '\r' && rest[i + 1] == '\n') {
      assert t[i + n + 1] == rest[i] && t[i + n + 1 + 1] == rest[i + 1];
    }
    if n > 0 {
      assert t[n - 1 + 1] == '\n';
      assert t[n - 1] != '\r';
    }
  }

  lemma {:induction false} JoinSplitLf(t: string)
    requires !HasCrLf(t)
    ensures Join(Split(t), "\n") == t
    decreases |t|
  {
    var n := NewlineIndex(t);
    if n < |t| {
      FirstLf(t);
      JoinSplitLf(t[n + 1..]);
      JoinFirst(t[..n], Split(t[n + 1..]), "\n");
      AroundNewline(t, n);
    }
  }

  lemma {:induction false} AroundNewline(t: string, n: nat)
    requires n < |t| && t[n] == '\n'
    ensures t == t[..n] + "\n" + t[n + 1..]
  {
  }

  lemma {:induction false} SplitSeparableLf(t: string)
    requires !HasCrLf(t)
    ensures Separable(Split(t), "\n")
    decreases |t|
  {
    SplitLines(t);
    if NewlineIndex(t) < |t| {
      FirstLf(t);
      SplitSeparableLf(t[NewlineIndex(t) + 1..]);
    }
  }

  lemma {:induction false} JoinSplitCrLf(t: string)
    requires AllCrLf(t)
    ensures Join(Split(t), "\r\n") == t
    ensures Separable(Split(t), "\r\n")
    decreases |t|
  {
    var n := NewlineIndex(t);
    SplitLines(t);
    if n < |t| {
      var rest := t[n + 1..];
      forall i | 0 <= i < |rest| && rest[i] == '\n' ensures i > 0 && rest[i - 1] == '\r' {
        assert t[i + n + 1] == '\n';
      }
      JoinSplitCrLf(rest);
      assert t[n - 1] == '\r';
      assert StripCr(t[..n]) == t[..n - 1];
      assert Split(t) == [t[..n - 1]] + Split(rest);
      JoinFirst(t[..n - 1], Split(rest), "\r\n");
      assert t == t[..n - 1] + "\r\n" + rest;
    }
  }

  lemma {:induction false} JoinFirst(line: string, rest: seq<string>, nl: string)
    requires rest != []
    ensures Join([line] + rest, nl) == line + nl + Join(rest, nl)
  {
    assert ([line] + rest)[1..] == rest;
  }

  /** Joining inverts splitting on texts with uniform line ends. */
  lemma {:induction false} JoinSplit(t: string)
    requires UniformNewlines(t)
    ensures Join(Split(t), NewlineOf(t)) == t
    ensures Separable(Split(t), NewlineOf(t))
  {
    if HasCrLf(t) {
      JoinSplitCrLf(t);
    } else {
      JoinSplitLf(t);
      SplitSeparableLf(t);
    }
  }

  /** Every split text can be joined again without merging lines. */
  lemma {:induction false} SplitSeparable(t: string)
    ensures Separable(Split(t), NewlineOf(t))
  {
    SplitLines(t);
    if !HasCrLf(t) {
      SplitSeparableLf(t);
    }
  }

  lemma {:induction false} JoinAppend(a: seq<string>, b: seq<string>, nl: string)
    requires a != [] && b != []
    ensures Join(a + b, nl) == Join(a, nl) + nl + Join(b, nl)
  {
    if |a| == 1 {
      assert (a + b)[1..] == b;
    } else {
      JoinAppend(a[1..], b, nl);
      assert (a + b)[1..] == a[1..] + b;
      assert Join(a + b, nl) == a[0] + nl + (Join(a[1..], nl) + nl + Join(b, nl));
    }
  }

  /** The line end of a joined text is the one it was joined with, given two lines or an LF. */
  lemma {:induction false} NewlineOfJoin(lines: seq<string>, nl: string)
    requires IsNewline(nl) && Separable(lines, nl)
    requires nl == "\r\n" ==> |lines| > 1
    ensures NewlineOf(Join(lines, nl)) == nl
  {
    if nl == "\n" {
      NoCrLf(lines);
    } else {
      var t := Join(lines, nl);
      assert t == lines[0] + nl + Join(lines[1..], nl);
      assert t[|lines[0]|] == '\r' && t[|lines[0]| + 1] == '\n';
    }
  }

  lemma {:induction false} NoCrLf(lines: seq<string>)
    requires Separable(lines, "\n")
    ensures !HasCrLf(Join(lines, "\n"))
  {
    if |lines| > 1 {
      var first, rest := lines[0], Join(lines[1..], "\n");
      assert Separable(lines[1..], "\n") by {
        forall i | 0 <= i < |lines[1..]| ensures '\n' !in lines[1..][i] {
          assert lines[1..][i] == lines[i + 1];
        }
      }
      NoCrLf(lines[1..]);
      var t := first + "\n" + rest;
      forall i | 0 <= i < |t| - 1 ensures !(t[i] == '\r' && t[i + 1] == '\n') {
        if i < |first| - 1 {
          assert t[i + 1] == first[i + 1];
        } else if i == |first| - 1 {
          assert t[i] == first[|first| - 1];
        } else if i > |first| {
          assert t[i] == rest[i - |first| - 1] && t[i + 1] == rest[i - |first| - 1 + 1];
        }
      }
    }
  }

  lemma {:induction false} JoinedAllCrLf(lines: seq<string>)
    requires forall i :: 0 <= i < |lines| ==> '\n' !in lines[i]
    ensures AllCrLf(Join(lines, "\r\n"))
  {
    if |lines| > 1 {
      var first, rest := lines[0], Join(lines[1..], "\r\n");
      JoinedAllCrLf(lines[1..]);
      var t := first + "\r\n" + rest;
      assert forall j :: 0 <= j < |first| ==> t[j] == first[j];
      forall i | 0 <= i < |t| && t[i] == '\n' ensures i > 0 && t[i - 1] == '\r' {
        if i > |first| + 1 {
          assert t[i] == rest[i - |first| - 2];
          assert t[i - 1] == rest[i - |first| - 2 - 1];
        }
      }
    }
  }
}
