/** The JavaScript string primitives the core relies on: `split(' ')`,
    `trim()`, and the two regular expressions that check a password's
    strength and an e-mail address's shape. Strings are sequences of
    characters; JavaScript's `.length`, which counts UTF-16 code units, is
    `Utf16Length`. */
module Strings {

  /** JavaScript's LineTerminator characters: the ones `.` in a regular
      expression does not match. */
  predicate IsLineTerminator(c: char) {
    c == '\n' || c == '\r' || c == '\U{2028}' || c == '\U{2029}'
  }

  /** JavaScript's WhiteSpace and LineTerminator characters: what `trim()`
      removes and what `\S` refuses. */
  predicate IsWhitespace(c: char) {
    || IsLineTerminator(c)
    || c == '\t' || c == '\U{000B}' || c == '\U{000C}' || c == ' '
    || c == '\U{00A0}' || c == '\U{1680}' || ('\U{2000}' <= c <= '\U{200A}')
    || c == '\U{202F}' || c == '\U{205F}' || c == '\U{3000}' || c == '\U{FEFF}'
  }

  predicate NoWhitespace(s: string) {
    forall k :: 0 <= k < |s| ==> !IsWhitespace(s[k])
  }

  // ---------------------------------------------------------------------
  // split(' ') and its inverse

  /** `s.split(' ')`: the fields between single spaces. There is always at
      least one field, and two adjacent spaces give an empty field. */
  function Split(s: string): (fields: seq<string>)
    ensures |fields| >= 1
    ensures forall i :: 0 <= i < |fields| ==> ' ' !in fields[i]
    decreases |s|
  {
    if s == [] then [""]
    else if s[0] == ' ' then [""] + Split(s[1..])
    else
      var rest := Split(s[1..]);
      [[s[0]] + rest[0]] + rest[1..]
  }

  /** `fields.join(' ')`. */
  function Join(fields: seq<string>): string
    requires |fields| >= 1
  {
    if |fields| == 1 then fields[0] else fields[0] + " " + Join(fields[1..])
  }

  /** Splitting loses nothing: joining the fields with spaces gives the
      string back. */
  lemma {:induction false} JoinSplit(s: string)
    ensures Join(Split(s)) == s
    decreases |s|
  {
    if s == [] {
    } else if s[0] == ' ' {
      JoinSplit(s[1..]);
      assert s == " " + s[1..];
    } else {
      JoinSplit(s[1..]);
      var rest := Split(s[1..]);
      if |rest| == 1 {
        assert s == [s[0]] + rest[0];
      } else {
        assert Join(rest) == rest[0] + " " + Join(rest[1..]);
        assert s == [s[0]] + rest[0] + " " + Join(rest[1..]);
      }
    }
  }

  /** Fields that hold no space come back unchanged from a join and a split. */
  lemma {:induction false} SplitJoin(fields: seq<string>)
    requires |fields| >= 1
    requires forall i :: 0 <= i < |fields| ==> ' ' !in fields[i]
    ensures Split(Join(fields)) == fields
    decreases |fields|, |fields[0]|
  {
    var f := fields[0];
    if f == [] {
      if |fields| > 1 {
        SplitJoin(fields[1..]);
        assert Join(fields) == " " + Join(fields[1..]);
        assert Join(fields)[1..] == Join(fields[1..]);
        assert fields == [""] + fields[1..];
      }
    } else {
      var shorter := fields[0 := f[1..]];
      assert ' ' !in f[1..] && f[0] != ' ';
      assert forall i :: 0 <= i < |shorter| ==> ' ' !in shorter[i];
      SplitJoin(shorter);
      assert Join(fields) == [f[0]] + Join(shorter) by {
        if |fields| > 1 {
          assert Join(shorter) == f[1..] + " " + Join(fields[1..]);
          assert f == [f[0]] + f[1..];
        } else {
          assert f == [f[0]] + f[1..];
        }
      }
      assert Join(fields)[0] == f[0] && Join(fields)[1..] == Join(shorter);
      assert shorter[0] == f[1..] && shorter[1..] == fields[1..];
      assert f == [f[0]] + f[1..] && fields == [f] + fields[1..];
      assert fields == [[f[0]] + shorter[0]] + shorter[1..];
    }
  }

  /** A word without spaces in front of `t` only extends the first field of `t`. */
  lemma {:induction false} SplitAfterWord(a: string, t: string)
    requires ' ' !in a
    ensures Split(a + t) == [a + Split(t)[0]] + Split(t)[1..]
    decreases |a|
  {
    var parts := Split(t);
    if a != [] {
      SplitAfterWord(a[1..], t);
      var rest := Split(a[1..] + t);
      assert (a + t)[0] == a[0] && a[0] != ' ';
      assert (a + t)[1..] == a[1..] + t;
      assert Split(a + t) == [[a[0]] + rest[0]] + rest[1..];
      assert [a[0]] + rest[0] == a + parts[0] by {
        assert a == [a[0]] + a[1..];
      }
    } else {
      assert a + t == t && a + parts[0] == parts[0];
      assert parts == [parts[0]] + parts[1..];
    }
  }

  /** The first field of `b + rest` is `b` when `b` holds no space and
      `rest` is empty or starts with one. */
  lemma FirstField(b: string, rest: string)
    requires ' ' !in b
    requires rest == "" || rest[0] == ' '
    ensures Split(b + rest)[0] == b
  {
    SplitAfterWord(b, rest);
    if rest != "" {
      assert Split(rest) == [""] + Split(rest[1..]);
    }
  }

  /** A leading space opens an empty first field. */
  lemma SplitLeadingSpace(u: string)
    ensures Split(" " + u) == [""] + Split(u)
  {
    assert (" " + u)[1..] == u;
  }

  /** A word without spaces in front of `t` leaves the later fields of `t` alone. */
  lemma SplitKeepsLaterFields(a: string, t: string)
    requires ' ' !in a
    ensures |Split(a + t)| == |Split(t)|
    ensures Split(a + t)[1..] == Split(t)[1..]
  {
    SplitAfterWord(a, t);
  }

  /** The second field of `" " + b + rest` is `b`. */
  lemma FieldAfterSpace(b: string, rest: string)
    requires ' ' !in b
    requires rest == "" || rest[0] == ' '
    ensures |Split(" " + (b + rest))| >= 2
    ensures Split(" " + (b + rest))[1] == b
  {
    SplitLeadingSpace(b + rest);
    FirstField(b, rest);
  }

  /** The second field of `a + " " + b + rest` is `b` when neither `a` nor `b`
      holds a space and `rest` is empty or starts a new field. */
  lemma SecondField(a: string, b: string, rest: string)
    requires ' ' !in a && ' ' !in b
    requires rest == "" || rest[0] == ' '
    ensures |Split(a + " " + b + rest)| >= 2
    ensures Split(a + " " + b + rest)[1] == b
  {
    var t := " " + (b + rest);
    assert a + " " + b + rest == a + t;
    FieldAfterSpace(b, rest);
    SplitKeepsLaterFields(a, t);
    assert Split(a + t)[1] == Split(a + t)[1..][0];
  }

  // ---------------------------------------------------------------------
  // trim()

  /** Drops the leading whitespace. */
  function TrimStart(s: string): (r: string)
    ensures |r| <= |s| && r == s[|s| - |r|..]
    ensures forall k :: 0 <= k < |s| - |r| ==> IsWhitespace(s[k])
    ensures r == [] || !IsWhitespace(r[0])
  {
    if s != [] && IsWhitespace(s[0]) then TrimStart(s[1..]) else s
  }

  /** Drops the trailing whitespace. */
  function TrimEnd(s: string): (r: string)
    ensures |r| <= |s| && r == s[..|r|]
    ensures forall k :: |r| <= k < |s| ==> IsWhitespace(s[k])
    ensures r == [] || !IsWhitespace(r[|r| - 1])
  {
    if s != [] && IsWhitespace(s[|s| - 1]) then TrimEnd(s[..|s| - 1]) else s
  }

  /** `s.trim()`: the middle of `s` without whitespace at either end; it is
      empty exactly when `s` is nothing but whitespace. */
  function Trim(s: string): (r: string)
    ensures |r| <= |s|
    ensures exists i, j ::
      && 0 <= i <= j <= |s| && r == s[i..j]
      && (forall k :: 0 <= k < i ==> IsWhitespace(s[k]))
      && (forall k :: j <= k < |s| ==> IsWhitespace(s[k]))
    ensures r == [] || (!IsWhitespace(r[0]) && !IsWhitespace(r[|r| - 1]))
    ensures r == [] <==> forall k :: 0 <= k < |s| ==> IsWhitespace(s[k])
  {
    var t := TrimStart(s);
    var r := TrimEnd(t);
    var i := |s| - |t|;
    var j := i + |r|;
    assert r == s[i..j];
    assert r != [] ==> !IsWhitespace(s[i]);
    r
  }

  // ---------------------------------------------------------------------
  // Lengths: JavaScript's `.length` and the validation library's `isLength`

  /** A character outside the Basic Multilingual Plane: JavaScript stores it
      as a surrogate pair of two code units. */
  predicate IsAstral(c: char) {
    c as int > 0xFFFF
  }

  /** The text and emoji presentation selectors U+FE0E and U+FE0F. */
  predicate IsVariationSelector(c: char) {
    c == '\U{FE0E}' || c == '\U{FE0F}'
  }

  /** `s.length` in JavaScript: the number of UTF-16 code units. */
  function Utf16Length(s: string): (n: nat)
    ensures |s| <= n <= 2 * |s|
    ensures |s| == 1 ==> n == (if IsAstral(s[0]) then 2 else 1)
    ensures n == |s| <==> forall k :: 0 <= k < |s| ==> !IsAstral(s[k])
  {
    if s == [] then 0
    else
      var n := (if IsAstral(s[0]) then 2 else 1) + Utf16Length(s[1..]);
      assert forall k :: 1 <= k < |s| ==> s[k] == s[1..][k - 1];
      n
  }

  /** The length `isLength` compares with its bounds: `str.length`, less one
      for each surrogate pair and one for each variation selector. Each
      character counts once, except a variation selector, which counts zero. */
  function IsLengthCount(s: string): (n: nat)
    ensures n <= |s|
    ensures |s| == 1 ==> n == (if IsVariationSelector(s[0]) then 0 else 1)
    ensures n == |s| <==> forall k :: 0 <= k < |s| ==> !IsVariationSelector(s[k])
  {
    if s == [] then 0
    else
      var n := (if IsVariationSelector(s[0]) then 0 else 1) + IsLengthCount(s[1..]);
      assert forall k :: 1 <= k < |s| ==> s[k] == s[1..][k - 1];
      n
  }

  /** `.length` of a concatenation is the sum of the parts' lengths. */
  lemma {:induction false} Utf16LengthAppend(a: string, b: string)
    ensures Utf16Length(a + b) == Utf16Length(a) + Utf16Length(b)
    decreases |a|
  {
    if a != [] {
      Utf16LengthAppend(a[1..], b);
      assert (a + b)[1..] == a[1..] + b;
    } else {
      assert a + b == b;
    }
  }

  /** The count `isLength` checks is additive over a concatenation too. */
  lemma {:induction false} IsLengthCountAppend(a: string, b: string)
    ensures IsLengthCount(a + b) == IsLengthCount(a) + IsLengthCount(b)
    decreases |a|
  {
    if a != [] {
      IsLengthCountAppend(a[1..], b);
      assert (a + b)[1..] == a[1..] + b;
    } else {
      assert a + b == b;
    }
  }

  /** No character that the two counts treat differently. */
  predicate LengthsAgree(s: string) {
    forall k :: 0 <= k < |s| ==> !IsAstral(s[k]) && !IsVariationSelector(s[k])
  }

  /** The library never counts more than JavaScript does, and the two counts
      are equal exactly when no character is outside the Basic Multilingual
      Plane and none is a variation selector. */
  lemma LengthCounts(s: string)
    ensures IsLengthCount(s) <= |s| <= Utf16Length(s)
    ensures Utf16Length(s) == IsLengthCount(s) <==> LengthsAgree(s)
  {
  }

  /** "\U{1F600}" is two code units and one counted character; a trailing
      U+FE0F is one code unit and no counted character. */
  lemma LengthExamples()
    ensures Utf16Length("\U{1F600}") == 2 && IsLengthCount("\U{1F600}") == 1
    ensures Utf16Length("aB1cd\U{FE0F}") == 6 && IsLengthCount("aB1cd\U{FE0F}") == 5
  {
    assert "\U{1F600}"[1..] == "";
    var p := "aB1cd\U{FE0F}";
    assert p[1..] == "B1cd\U{FE0F}" && p[1..][1..] == "1cd\U{FE0F}";
    assert p[1..][1..][1..] == "cd\U{FE0F}" && p[1..][1..][1..][1..] == "d\U{FE0F}";
    assert p[1..][1..][1..][1..][1..] == "\U{FE0F}";
  }

  // ---------------------------------------------------------------------
  // /^(?=.*[a-z])(?=.*[A-Z])(?=.*\d)/

  /** What `.*` can cover from the start of `s`: everything before the
      first line terminator. */
  function FirstLine(s: string): (line: string)
    ensures |line| <= |s| && line == s[..|line|]
    ensures forall k :: 0 <= k < |line| ==> !IsLineTerminator(line[k])
    ensures |line| < |s| ==> IsLineTerminator(s[|line|])
  {
    if s == [] || IsLineTerminator(s[0]) then [] else [s[0]] + FirstLine(s[1..])
  }

  predicate IsAsciiLower(c: char) { 'a' <= c <= 'z' }
  predicate IsAsciiUpper(c: char) { 'A' <= c <= 'Z' }
  predicate IsAsciiDigit(c: char) { '0' <= c <= '9' }

  predicate HasAsciiLower(s: string) { exists k :: 0 <= k < |s| && IsAsciiLower(s[k]) }
  predicate HasAsciiUpper(s: string) { exists k :: 0 <= k < |s| && IsAsciiUpper(s[k]) }
  predicate HasAsciiDigit(s: string) { exists k :: 0 <= k < |s| && IsAsciiDigit(s[k]) }

  /** The lookahead pattern `^(?=.*[a-z])(?=.*[A-Z])(?=.*\d)` as JavaScript
      reads it: each of the three lookaheads starts at position 0 and its
      `.*` stops at the first line terminator, so all three character
      classes must occur in the first line. */
  predicate MatchesStrengthPattern(s: string) {
    var line := FirstLine(s);
    HasAsciiLower(line) && HasAsciiUpper(line) && HasAsciiDigit(line)
  }

  /** On a one-line string the pattern asks for a lower-case letter, an
      upper-case letter and a digit anywhere in it. */
  lemma StrengthPatternOnOneLine(s: string)
    requires forall k :: 0 <= k < |s| ==> !IsLineTerminator(s[k])
    ensures MatchesStrengthPattern(s) <==> HasAsciiLower(s) && HasAsciiUpper(s) && HasAsciiDigit(s)
  {
    assert FirstLine(s) == s;
  }

  /** A line break hides what follows it from the pattern: "ab\nC1" holds
      all three classes and is refused. */
  lemma LineBreakHidesRest()
    ensures !MatchesStrengthPattern("ab\nC1")
    ensures MatchesStrengthPattern("abC1")
  {
    assert FirstLine("ab\nC1") == "ab";
    assert FirstLine("abC1") == "abC1";
    assert IsAsciiLower("abC1"[0]) && IsAsciiUpper("abC1"[2]) && IsAsciiDigit("abC1"[3]);
  }

  // ---------------------------------------------------------------------
  // /\S+@\S+\.\S+/

  /** `\S+@\S+\.\S+` matches with its `@` at `at` and its `.` at `dot`: a
      non-blank character before the `@`, a run of non-blank characters
      between them, and a non-blank character after the `.`. */
  predicate EmailMatchAt(s: string, at: int, dot: int) {
    && 0 < at && at + 1 < dot && dot + 1 < |s|
    && s[at] == '@' && s[dot] == '.'
    && !IsWhitespace(s[at - 1]) && !IsWhitespace(s[dot + 1])
    && NoWhitespace(s[at + 1..dot])
  }

  /** The unanchored pattern `\S+@\S+\.\S+`: it matches somewhere in `s`.
      Taking the shortest runs before the `@` and after the `.` loses no
      match. */
  predicate MatchesEmailPattern(s: string) {
    exists at, dot | 0 <= at < |s| && 0 <= dot < |s| :: EmailMatchAt(s, at, dot)
  }

  /** A match needs an `@` with something before it, and a `.` at least two
      places later with something after it: so at least five characters, and
      no string without an `@` or without a `.` matches. */
  lemma EmailPatternNeeds(s: string)
    requires MatchesEmailPattern(s)
    ensures |s| >= 5 && '@' in s && '.' in s
  {
    var at, dot :| 0 <= at < |s| && 0 <= dot < |s| && EmailMatchAt(s, at, dot);
    assert s[at] in s && s[dot] in s;
  }

  /** Two examples: an address matches, and a blank between `@` and `.` breaks
      the middle run. */
  lemma EmailPatternExamples()
    ensures MatchesEmailPattern("a@b.c")
    ensures !MatchesEmailPattern("a@ .c")
  {
    var s := "a@b.c";
    assert s[2..3] == "b" && NoWhitespace(s[2..3]);
    assert EmailMatchAt(s, 1, 3);
    var t := "a@ .c";
    forall at: int, dot: int | 0 <= at < |t| && 0 <= dot < |t|
      ensures !EmailMatchAt(t, at, dot)
    {
      if 0 < at && at + 1 < dot && dot + 1 < |t| && t[at] == '@' && t[dot] == '.' {
        assert at == 1 && dot == 3;
        assert t[at + 1..dot][0] == ' ';
      }
    }
  }
}
