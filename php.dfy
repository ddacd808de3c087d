/** The parts of the PHP runtime that the registration code leans on: files as
    `file_exists` / `file_get_contents` see them, and the string functions `empty`,
    `trim`, `explode` and `implode`. A PHP string is a byte string; each `char`
    here stands for one byte, so `strlen(s)` is `|s|`. */
module Php {

  /** A file as PHP sees it: missing, or present with its whole content. */
  datatype File = Absent | Present(content: string)

  /** What `file_get_contents` would read; a missing file reads as nothing. */
  function ContentOf(f: File): string {
    if f.Present? then f.content else ""
  }

  /** `empty($s)` for a string: the empty string and "0". */
  predicate IsEmptyString(s: string) {
    s == "" || s == "0"
  }

  /** The characters `trim` strips by default: space, tab, LF, CR, NUL, vertical tab. */
  predicate IsTrimChar(c: char) {
    c == ' ' || c == '\t' || c == '\n' || c == '\r' || c == '\0' || c == '\U{B}'
  }

  function TrimLeft(s: string): (r: string)
    ensures |r| <= |s|
    ensures r == [] || !IsTrimChar(r[0])
  {
    if s != [] && IsTrimChar(s[0]) then TrimLeft(s[1..]) else s
  }

  function TrimRight(s: string): (r: string)
    ensures |r| <= |s|
    ensures r == [] || !IsTrimChar(r[|r| - 1])
  {
    if s != [] && IsTrimChar(s[|s| - 1]) then TrimRight(s[..|s| - 1]) else s
  }

  /** PHP `trim`: strips trim characters from both ends. */
  function Trim(s: string): (r: string)
    ensures |r| <= |s|
    ensures r == [] || (!IsTrimChar(r[0]) && !IsTrimChar(r[|r| - 1]))
  {
    TrimRightPrefix(TrimLeft(s));
    TrimRight(TrimLeft(s))
  }

  /** `rtrim` only strips: what is left is a prefix. */
  lemma {:induction false} TrimRightPrefix(s: string)
    ensures TrimRight(s) == s[..|TrimRight(s)|]
  {
    if s != [] && IsTrimChar(s[|s| - 1]) {
      TrimRightPrefix(s[..|s| - 1]);
    }
  }

  /** `rtrim` only strips trim characters: what it dropped from the end are all trim characters. */
  lemma {:induction false} TrimRightDrops(s: string)
    ensures forall i :: |TrimRight(s)| <= i < |s| ==> IsTrimChar(s[i])
  {
    if s != [] && IsTrimChar(s[|s| - 1]) {
      TrimRightDrops(s[..|s| - 1]);
    }
  }

  /** `trim` keeps a contiguous middle part of its input and drops from either
      end nothing but trim characters. */
  lemma TrimStripsOnlyTrimChars(s: string)
    ensures var l := |s| - |TrimLeft(s)|;
      l + |Trim(s)| <= |s| && Trim(s) == s[l..l + |Trim(s)|] &&
      forall k :: 0 <= k < l || l + |Trim(s)| <= k < |s| ==> IsTrimChar(s[k])
  {
    var t := TrimLeft(s);
    var l := |s| - |t|;
    TrimLeftSuffix(s);
    TrimRightPrefix(t);
    TrimRightDrops(t);
    var r := Trim(s);
    assert r == TrimRight(t);
    forall k | l + |r| <= k < |s| ensures IsTrimChar(s[k]) {
      assert s[k] == t[k - l];
    }
  }

  /** `ltrim` only strips: what is left is a suffix, and all it dropped are trim characters. */
  lemma {:induction false} TrimLeftSuffix(s: string)
    ensures TrimLeft(s) == s[|s| - |TrimLeft(s)|..]
    ensures forall i :: 0 <= i < |s| - |TrimLeft(s)| ==> IsTrimChar(s[i])
  {
    if s != [] && IsTrimChar(s[0]) {
      var t := TrimLeft(s[1..]);
      TrimLeftSuffix(s[1..]);
      assert s[1..][|s| - 1 - |t|..] == s[|s| - |t|..];
      forall i | 0 <= i < |s| - |t| ensures IsTrimChar(s[i]) {
        if i > 0 {
          assert s[i] == s[1..][i - 1];
        }
      }
    }
  }

  /** Number of occurrences of `c` in `s`. */
  function Count(s: string, c: char): nat {
    if s == [] then 0 else (if s[0] == c then 1 else 0) + Count(s[1..], c)
  }

  lemma {:induction false} CountConcat(a: string, b: string, c: char)
    ensures Count(a + b, c) == Count(a, c) + Count(b, c)
  {
    if a != [] {
      assert (a + b)[1..] == a[1..] + b;
      CountConcat(a[1..], b, c);
    } else {
      assert a + b == b;
    }
  }

  lemma {:induction false} CountZero(s: string, c: char)
    ensures Count(s, c) == 0 <==> c !in s
  {
    if s != [] {
      CountZero(s[1..], c);
      assert s == [s[0]] + s[1..];
    }
  }

  /** PHP `explode` with a one-character delimiter: the pieces between the
      occurrences of `d`, in order. There is always at least one piece. */
  function Split(s: string, d: char): (r: seq<string>)
    ensures |r| == Count(s, d) + 1
    ensures forall i :: 0 <= i < |r| ==> d !in r[i]
  {
    if s == [] then [""]
    else if s[0] == d then [""] + Split(s[1..], d)
    else
      var rest := Split(s[1..], d);
      [[s[0]] + rest[0]] + rest[1..]
  }

  /** PHP `implode`. */
  function Join(parts: seq<string>, sep: string): string {
    if parts == [] then ""
    else if |parts| == 1 then parts[0]
    else parts[0] + sep + Join(parts[1..], sep)
  }

  /** `implode` undoes `explode`: splitting loses nothing. */
  lemma {:induction false} JoinSplit(s: string, d: char)
    ensures Join(Split(s, d), [d]) == s
  {
    if s != [] {
      var rest := Split(s[1..], d);
      JoinSplit(s[1..], d);
      if s[0] == d {
        assert Split(s, d) == [""] + rest;
      } else if |rest| == 1 {
        assert Split(s, d) == [[s[0]] + rest[0]];
      } else {
        var r := Split(s, d);
        assert r[1..] == rest[1..];
        assert Join(rest, [d]) == rest[0] + [d] + Join(rest[1..], [d]);
      }
    }
  }

  /** Splitting at one occurrence of the delimiter splits the pieces there. */
  lemma {:induction false} SplitConcat(a: string, b: string, d: char)
    ensures Split(a + [d] + b, d) == Split(a, d) + Split(b, d)
  {
    if a == [] {
      assert a + [d] + b == [d] + b;
    } else {
      assert (a + [d] + b)[1..] == a[1..] + [d] + b;
      SplitConcat(a[1..], b, d);
    }
  }

  lemma {:induction false} SplitNoDelimiter(s: string, d: char)
    requires d !in s
    ensures Split(s, d) == [s]
  {
    if s != [] {
      SplitNoDelimiter(s[1..], d);
      assert [s[0]] + s[1..] == s;
    }
  }

  /** Joined parts split back apart at the first joint when the first part
      holds no delimiter. */
  lemma SplitJoinHead(parts: seq<string>, d: char)
    requires |parts| >= 2 && d !in parts[0]
    ensures Split(Join(parts, [d]), d) == [parts[0]] + Split(Join(parts[1..], [d]), d)
  {
    SplitConcat(parts[0], Join(parts[1..], [d]), d);
    SplitNoDelimiter(parts[0], d);
  }

  /** `explode` undoes `implode` when no part holds the delimiter. */
  lemma {:induction false} SplitJoin(parts: seq<string>, d: char)
    requires |parts| >= 1
    requires forall i :: 0 <= i < |parts| ==> d !in parts[i]
    ensures Split(Join(parts, [d]), d) == parts
  {
    if |parts| == 1 {
      SplitNoDelimiter(parts[0], d);
    } else {
      SplitJoinHead(parts, d);
      SplitJoin(parts[1..], d);
    }
  }

  /** A file written only by appending whole lines: empty, or ending in a line break. */
  predicate EndsWithLineBreak(content: string) {
    content == [] || content[|content| - 1] == '\n'
  }

  /** A line-break-free text after a prefix ending in a line break is the last piece. */
  lemma LastPiece(prefix: string, rec: string)
    requires EndsWithLineBreak(prefix) && '\n' !in rec
    ensures var pieces := Split(prefix + rec, '\n'); pieces[|pieces| - 1] == rec
  {
    SplitNoDelimiter(rec, '\n');
    if prefix == [] {
      assert prefix + rec == rec;
    } else {
      var p := prefix[..|prefix| - 1];
      assert prefix + rec == p + ['\n'] + rec;
      SplitConcat(p, rec, '\n');
    }
  }

  /** A line appended to such a file is the piece before the final empty one. */
  lemma AppendedLine(content: string, line: string)
    requires EndsWithLineBreak(content) && '\n' !in line
    ensures var pieces := Split(content + line + "\n", '\n');
      |pieces| >= 2 && pieces[|pieces| - 2] == line && pieces[|pieces| - 1] == ""
  {
    assert content + line + "\n" == (content + line) + ['\n'] + [];
    SplitConcat(content + line, [], '\n');
    LastPiece(content, line);
  }

  /** Trimming a string with non-blank content in front leaves the rest untouched. */
  lemma {:induction false} TrimLeftConcat(a: string, b: string)
    ensures TrimLeft(a) != [] ==> TrimLeft(a + b) == TrimLeft(a) + b
    ensures TrimLeft(a) == [] ==> TrimLeft(a + b) == TrimLeft(b)
  {
    if a != [] {
      assert (a + b)[1..] == a[1..] + b;
      if IsTrimChar(a[0]) {
        TrimLeftConcat(a[1..], b);
      }
    } else {
      assert a + b == b;
    }
  }
}
