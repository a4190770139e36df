/** The JavaScript string primitives the Markdown pipe relies on, over
    `string` (= `seq<char>`): `trim`, `split("\n")`, `join`, `startsWith`,
    the regular-expression classes `\s`, `\w`, `\d` and `.`, ASCII case
    folding as the `i` flag applies it to an ASCII pattern, and the maximal
    runs that the greedy quantifiers of the pipe's patterns consume. */
module Strings {

  /** ECMAScript WhiteSpace and LineTerminator: exactly the code points that
      `String.prototype.trim` strips and that `\s` matches. */
  predicate IsSpace(c: char) {
    c == '\t' || c == '\n' || c == '\U{000B}' || c == '\U{000C}' || c == '\r' || c == ' '
    || c == '\U{00A0}' || c == '\U{1680}' || ('\U{2000}' <= c <= '\U{200A}')
    || c == '\U{2028}' || c == '\U{2029}' || c == '\U{202F}' || c == '\U{205F}'
    || c == '\U{3000}' || c == '\U{FEFF}'
  }

  /** ECMAScript LineTerminator: the code points `.` does not match. */
  predicate IsLineTerminator(c: char) {
    c == '\n' || c == '\r' || c == '\U{2028}' || c == '\U{2029}'
  }

  /** `\w` without the `u` flag. */
  predicate IsWordChar(c: char) {
    ('a' <= c <= 'z') || ('A' <= c <= 'Z') || ('0' <= c <= '9') || c == '_'
  }

  /** `\d`. */
  predicate IsDigit(c: char) {
    '0' <= c <= '9'
  }

  datatype Option<T> = None | Some(value: T)

  /** `s.endsWith(p)`. */
  predicate EndsWith(s: string, p: string) {
    |p| <= |s| && s[|s| - |p|..] == p
  }

  /** The character classes whose maximal runs the pipe's patterns consume. */
  datatype Class = Space | Word | Digit | Is(c: char) | Not(c: char)

  predicate In(cls: Class, c: char) {
    match cls
    case Space => IsSpace(c)
    case Word => IsWordChar(c)
    case Digit => IsDigit(c)
    case Is(d) => c == d
    case Not(d) => c != d
  }

  /** Length of the longest prefix of `s` made of characters of `cls`: what a
      greedy `cls*` consumes at the start of `s`. */
  function RunLength(s: string, cls: Class): (n: nat)
    ensures n <= |s|
  {
    if s == [] || !In(cls, s[0]) then 0 else 1 + RunLength(s[1..], cls)
  }

  /** The run is made of `cls` characters and ends at a character outside
      `cls` or at the end of `s`. */
  lemma {:induction false} RunLengthSpec(s: string, cls: Class)
    ensures forall k :: 0 <= k < RunLength(s, cls) ==> In(cls, s[k])
    ensures RunLength(s, cls) < |s| ==> !In(cls, s[RunLength(s, cls)])
  {
    if s != [] && In(cls, s[0]) {
      RunLengthSpec(s[1..], cls);
    }
  }

  /** A run up to `c` holds no `c` and, unless it reaches the end, stops at
      a `c`. */
  lemma RunUpTo(s: string, c: char)
    ensures c !in s[..RunLength(s, Not(c))]
    ensures RunLength(s, Not(c)) < |s| ==> s[RunLength(s, Not(c))] == c
  {
    var n := RunLength(s, Not(c));
    RunLengthSpec(s, Not(c));
    forall k | 0 <= k < n ensures s[..n][k] != c {
    }
  }

  /** The only maximal run: any prefix of `cls` characters that is followed
      by a character outside `cls` (or by the end) has the run's length. */
  lemma {:induction false} RunLengthUnique(s: string, cls: Class, n: nat)
    requires n <= |s|
    requires forall k :: 0 <= k < n ==> In(cls, s[k])
    requires n < |s| ==> !In(cls, s[n])
    ensures RunLength(s, cls) == n
  {
    if n > 0 {
      RunLengthUnique(s[1..], cls, n - 1);
    }
  }

  /** The run is computed from the prefix alone: a suffix appended after a
      character that ends the run does not change it. */
  lemma RunLengthAppend(a: string, b: string, cls: Class)
    requires RunLength(a, cls) < |a|
    ensures RunLength(a + b, cls) == RunLength(a, cls)
  {
    var n := RunLength(a, cls);
    RunLengthSpec(a, cls);
    assert (a + b)[n] == a[n];
    forall k | 0 <= k < n ensures In(cls, (a + b)[k]) {
      assert (a + b)[k] == a[k];
    }
    RunLengthUnique(a + b, cls, n);
  }

  /** Number of trailing characters of `s` that `trim` strips at the end. */
  function TrailLength(s: string): (n: nat)
    ensures n <= |s|
  {
    if s == [] || !IsSpace(s[|s| - 1]) then 0 else 1 + TrailLength(s[..|s| - 1])
  }

  /** The trailing run is white space and is preceded by a character that is
      not, or by the start of `s`. */
  lemma {:induction false} TrailLengthSpec(s: string)
    ensures forall k :: |s| - TrailLength(s) <= k < |s| ==> IsSpace(s[k])
    ensures TrailLength(s) < |s| ==> !IsSpace(s[|s| - TrailLength(s) - 1])
  {
    if s != [] && IsSpace(s[|s| - 1]) {
      TrailLengthSpec(s[..|s| - 1]);
    }
  }

  /** `String.prototype.trim`. */
  function Trim(s: string): string {
    var a := RunLength(s, Space);
    var t := s[a..];
    t[..|t| - TrailLength(t)]
  }

  /** What `trim` keeps is one contiguous piece of the input; everything it
      drops is white space; the piece neither starts nor ends with white
      space; and it is empty exactly when the input is all white space. */
  lemma TrimSpec(s: string)
    ensures exists a, b ::
      && 0 <= a <= b <= |s| && Trim(s) == s[a..b]
      && (forall k :: 0 <= k < a ==> IsSpace(s[k]))
      && (forall k :: b <= k < |s| ==> IsSpace(s[k]))
    ensures Trim(s) != [] ==> !IsSpace(Trim(s)[0]) && !IsSpace(Trim(s)[|Trim(s)| - 1])
    ensures Trim(s) == [] <==> forall k :: 0 <= k < |s| ==> IsSpace(s[k])
  {
    var a := RunLength(s, Space);
    var t := s[a..];
    var b := a + |t| - TrailLength(t);
    RunLengthSpec(s, Space);
    TrailLengthSpec(t);
    assert Trim(s) == s[a..b];
    forall k | b <= k < |s| ensures IsSpace(s[k]) {
      assert s[k] == t[k - a];
    }
    if Trim(s) == [] {
      assert a == |s|;
    }
  }

  /** Trimming twice is trimming once. */
  lemma TrimIdempotent(s: string)
    ensures Trim(Trim(s)) == Trim(s)
  {
    TrimSpec(s);
    var t := Trim(s);
    if t != [] {
      RunLengthUnique(t, Space, 0);
      assert t[0..] == t;
      assert TrailLength(t) == 0;
      assert t[..|t|] == t;
    }
  }

  /** A piece that starts and ends with non-white-space characters is kept
      whole by `trim`. */
  lemma TrimKeeps(s: string)
    requires s != [] && !IsSpace(s[0]) && !IsSpace(s[|s| - 1])
    ensures Trim(s) == s
  {
    assert s[0..] == s;
    assert s[..|s|] == s;
  }

  /** Regrouping a concatenation of five pieces behind the first. */
  lemma Regroup(p: string, a: string, b: string, c: string, d: string)
    ensures p + a + b + c + d == p + (a + b + c + d)
  {
  }

  /** `s.startsWith(p)`. */
  predicate StartsWith(s: string, p: string) {
    |p| <= |s| && s[..|p|] == p
  }

  /** ASCII upper case to lower case; every other character unchanged. */
  function LowerAscii(c: char): (r: char)
    ensures 'A' <= c <= 'Z' ==> 'a' <= r <= 'z' && r as int == c as int + 32
    ensures !('A' <= c <= 'Z') ==> r == c
  {
    if 'A' <= c <= 'Z' then (c as int + 32) as char else c
  }

  /** Whether `s` starts with `p` under the `i` flag of a regular expression
      whose pattern `p` is ASCII: letters compare without case, every other
      character exactly. */
  predicate StartsWithIgnoreCase(s: string, p: string) {
    |p| <= |s| && forall k :: 0 <= k < |p| ==> LowerAscii(s[k]) == LowerAscii(p[k])
  }

  /** `s.split(sep)` for a one-character separator: the pieces between the
      separators, in order, always at least one. */
  function Split(s: string, sep: char): (parts: seq<string>)
    ensures |parts| >= 1
    ensures forall k :: 0 <= k < |parts| ==> sep !in parts[k]
    decreases |s|
  {
    var n := RunLength(s, Not(sep));
    RunLengthSpec(s, Not(sep));
    if n == |s| then [s] else [s[..n]] + Split(s[n + 1..], sep)
  }

  /** `parts.join(sep)`. */
  function Join(parts: seq<string>, sep: string): string
    decreases |parts|
  {
    if |parts| == 0 then "" else if |parts| == 1 then parts[0]
    else parts[0] + sep + Join(parts[1..], sep)
  }

  /** Joining the pieces of a split with the separator gives back the text. */
  lemma {:induction false} JoinSplit(s: string, sep: char)
    ensures Join(Split(s, sep), [sep]) == s
    decreases |s|
  {
    var n := RunLength(s, Not(sep));
    RunLengthSpec(s, Not(sep));
    if n < |s| {
      JoinSplit(s[n + 1..], sep);
      assert s == s[..n] + [sep] + s[n + 1..];
    }
  }

  /** Splitting a join of separator-free pieces gives back the pieces. */
  lemma {:induction false} SplitJoin(parts: seq<string>, sep: char)
    requires |parts| >= 1
    requires forall k :: 0 <= k < |parts| ==> sep !in parts[k]
    ensures Split(Join(parts, [sep]), sep) == parts
    decreases |parts|
  {
    var p := parts[0];
    RunLengthUnique(p, Not(sep), |p|);
    if |parts| > 1 {
      var s := Join(parts, [sep]);
      assert s == p + [sep] + Join(parts[1..], [sep]);
      RunLengthUnique(s, Not(sep), |p|);
      assert s[..|p|] == p;
      assert s[|p| + 1..] == Join(parts[1..], [sep]);
      SplitJoin(parts[1..], sep);
      assert parts == [p] + parts[1..];
    }
  }
}
