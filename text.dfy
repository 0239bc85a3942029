/**
 * The Python string operations the core relies on: `str.strip()`,
 * `str.split()` on whitespace, `str.split(sep)` with a one-character
 * separator, `sep.join(parts)` and the substring test `w in s`.
 */
module Text {

  /** Python's `str.isspace` for one code point. */
  predicate IsSpace(c: char) {
    c == ' ' || c == '\t' || c == '\n' || c == '\r' || c == '\U{B}' || c == '\U{C}'
    || ('\U{1C}' <= c <= '\U{1F}') || c == '\U{85}' || c == '\U{A0}' || c == '\U{1680}'
    || ('\U{2000}' <= c <= '\U{200A}') || c == '\U{2028}' || c == '\U{2029}' || c == '\U{202F}'
    || c == '\U{205F}' || c == '\U{3000}'
  }

  /** `s` holds no whitespace. */
  predicate NoSpace(s: string) {
    forall i :: 0 <= i < |s| ==> !IsSpace(s[i])
  }

  // ---------------------------------------------------------------------
  // strip
  // ---------------------------------------------------------------------

  /** `s` without its leading whitespace. */
  function TrimStart(s: string): (r: string)
    ensures |r| <= |s| && r == s[|s| - |r|..]
    ensures r != [] ==> !IsSpace(r[0])
    ensures forall i :: 0 <= i < |s| - |r| ==> IsSpace(s[i])
  {
    if s != [] && IsSpace(s[0]) then TrimStart(s[1..]) else s
  }

  /** `s` without its trailing whitespace. */
  function TrimEnd(s: string): (r: string)
    ensures |r| <= |s| && r == s[..|r|]
    ensures r != [] ==> !IsSpace(r[|r| - 1])
    ensures forall i :: |r| <= i < |s| ==> IsSpace(s[i])
  {
    if s != [] && IsSpace(s[|s| - 1]) then TrimEnd(s[..|s| - 1]) else s
  }

  /** `s.strip()`. */
  function Strip(s: string): string {
    TrimEnd(TrimStart(s))
  }

  /**
   * `Strip(s)` is the stretch of `s` that starts where the leading
   * whitespace ends, and everything dropped after it is whitespace too.
   */
  lemma StripIsTrimmedInfix(s: string)
    ensures var i := |s| - |TrimStart(s)|;
            && i + |Strip(s)| <= |s|
            && Strip(s) == s[i..i + |Strip(s)|]
            && (forall k :: 0 <= k < i ==> IsSpace(s[k]))
            && (forall k :: i + |Strip(s)| <= k < |s| ==> IsSpace(s[k]))
  {
    var t := TrimStart(s);
    var i := |s| - |t|;
    var j := i + |TrimEnd(t)|;
    assert t == s[i..];
    forall k | j <= k < |s| ensures IsSpace(s[k]) {
      assert s[k] == t[k - i];
    }
  }

  /** `Strip(s)` neither starts nor ends with whitespace. */
  lemma StripEnds(s: string)
    ensures Strip(s) != [] ==> !IsSpace(Strip(s)[0]) && !IsSpace(Strip(s)[|Strip(s)| - 1])
  {
    var t := TrimStart(s);
    if Strip(s) != [] {
      assert Strip(s)[0] == t[0];
    }
  }

  /** A string that starts and ends with non-whitespace is its own strip. */
  lemma StripUnchanged(s: string)
    requires s != [] && !IsSpace(s[0]) && !IsSpace(s[|s| - 1])
    ensures Strip(s) == s
  {
  }

  // ---------------------------------------------------------------------
  // split(sep) and join
  // ---------------------------------------------------------------------

  /** `s.split(sep)`: the pieces between the occurrences of `sep`, empty ones included. */
  function SplitOn(s: string, sep: char): (r: seq<string>)
    ensures |r| >= 1
    ensures forall k :: 0 <= k < |r| ==> sep !in r[k]
  {
    if s == [] then [""]
    else if s[0] == sep then [""] + SplitOn(s[1..], sep)
    else
      var rest := SplitOn(s[1..], sep);
      [[s[0]] + rest[0]] + rest[1..]
  }

  /** `sep.join(parts)`. */
  function Join(parts: seq<string>, sep: char): string {
    if parts == [] then ""
    else if |parts| == 1 then parts[0]
    else parts[0] + [sep] + Join(parts[1..], sep)
  }

  /** Splitting at a separator and joining with it gives the string back. */
  lemma {:induction false} JoinSplit(s: string, sep: char)
    ensures Join(SplitOn(s, sep), sep) == s
  {
    if s != [] {
      JoinSplit(s[1..], sep);
      var rest := SplitOn(s[1..], sep);
      if s[0] == sep {
        assert SplitOn(s, sep)[1..] == rest;
      } else {
        var r := SplitOn(s, sep);
        if |rest| > 1 {
          assert r[1..] == rest[1..];
          assert Join(rest, sep) == rest[0] + [sep] + Join(rest[1..], sep);
        }
      }
    }
  }

  /** A string without the separator is one piece. */
  lemma {:induction false} SplitWithoutSep(s: string, sep: char)
    requires sep !in s
    ensures SplitOn(s, sep) == [s]
  {
    if s != [] {
      assert sep !in s[1..] by {
        forall k | 0 <= k < |s[1..]| ensures s[1..][k] != sep {
          assert s[1..][k] == s[k + 1];
        }
      }
      SplitWithoutSep(s[1..], sep);
      assert [s[0]] + s[1..] == s;
    }
  }

  /** Splitting at a separator occurrence splits the pieces there. */
  lemma {:induction false} SplitAtSep(a: string, b: string, sep: char)
    ensures SplitOn(a + [sep] + b, sep) == SplitOn(a, sep) + SplitOn(b, sep)
  {
    if a == [] {
      assert a + [sep] + b == [sep] + b;
      assert ([sep] + b)[1..] == b;
    } else {
      var s := a + [sep] + b;
      assert s[0] == a[0];
      assert s[1..] == a[1..] + [sep] + b;
      SplitAtSep(a[1..], b, sep);
    }
  }

  /** The number of occurrences of `c` in `s`. */
  function CountChar(s: string, c: char): nat {
    if s == [] then 0 else (if s[0] == c then 1 else 0) + CountChar(s[1..], c)
  }

  /** Splitting yields one piece more than there are separators. */
  lemma {:induction false} SplitLength(s: string, sep: char)
    ensures |SplitOn(s, sep)| == CountChar(s, sep) + 1
  {
    if s != [] {
      SplitLength(s[1..], sep);
    }
  }

  /** The pieces strictly between the first and the last separator are the pieces of the middle. */
  lemma SplitMiddle(first: string, body: string, last: string, sep: char)
    requires sep !in first && sep !in last
    ensures |SplitOn(first + [sep] + body + [sep] + last, sep)| >= 3
    ensures var lines := SplitOn(first + [sep] + body + [sep] + last, sep);
            lines[1..|lines| - 1] == SplitOn(body, sep)
  {
    var m := body + [sep] + last;
    assert first + [sep] + body + [sep] + last == first + [sep] + m;
    SplitAtSep(first, m, sep);
    SplitAtSep(body, last, sep);
    SplitWithoutSep(first, sep);
    SplitWithoutSep(last, sep);
    var lines := SplitOn(first + [sep] + m, sep);
    assert lines == [first] + SplitOn(body, sep) + [last];
  }

  /** Joining is the inverse of splitting on parts that hold no separator. */
  lemma {:induction false} SplitJoin(parts: seq<string>, sep: char)
    requires parts != []
    requires forall k :: 0 <= k < |parts| ==> sep !in parts[k]
    ensures SplitOn(Join(parts, sep), sep) == parts
  {
    if |parts| == 1 {
      SplitWithoutSep(parts[0], sep);
    } else {
      SplitJoin(parts[1..], sep);
      SplitAtSep(parts[0], Join(parts[1..], sep), sep);
      SplitWithoutSep(parts[0], sep);
      assert [parts[0]] + parts[1..] == parts;
    }
  }

  // ---------------------------------------------------------------------
  // split() on whitespace
  // ---------------------------------------------------------------------

  /** The longest prefix of `s` holding no whitespace. */
  function LeadingWord(s: string): (w: string)
    ensures |w| <= |s| && w == s[..|w|]
    ensures NoSpace(w)
    ensures |w| < |s| ==> IsSpace(s[|w|])
  {
    if s == [] || IsSpace(s[0]) then "" else [s[0]] + LeadingWord(s[1..])
  }

  /** `s.split()`: the maximal runs of non-whitespace, in order. */
  function Words(s: string): (ws: seq<string>)
    ensures forall k :: 0 <= k < |ws| ==> ws[k] != "" && NoSpace(ws[k])
    decreases |s|
  {
    if s == [] then []
    else if IsSpace(s[0]) then Words(s[1..])
    else
      var w := LeadingWord(s);
      [w] + Words(s[|w|..])
  }

  /** Words written out with single spaces between them split back into those words. */
  lemma {:induction false} WordsOfJoin(ws: seq<string>)
    requires forall k :: 0 <= k < |ws| ==> ws[k] != "" && NoSpace(ws[k])
    ensures Words(Join(ws, ' ')) == ws
  {
    if ws == [] {
    } else if |ws| == 1 {
      WordsOfWord(ws[0], "");
      assert ws[0] + "" == ws[0];
    } else {
      WordsOfJoin(ws[1..]);
      var rest := Join(ws[1..], ' ');
      WordsOfWord(ws[0], [' '] + rest);
      assert ws[0] + [' '] + rest == ws[0] + ([' '] + rest);
      assert Words([' '] + rest) == Words(rest) by {
        assert ([' '] + rest)[1..] == rest;
      }
      assert [ws[0]] + ws[1..] == ws;
    }
  }

  /** A non-empty word followed by nothing or by whitespace is read as that word first. */
  lemma {:induction false} WordsOfWord(w: string, tail: string)
    requires w != "" && NoSpace(w)
    requires tail == [] || IsSpace(tail[0])
    ensures Words(w + tail) == [w] + Words(tail)
  {
    LeadingWordOf(w, tail);
    assert (w + tail)[|w|..] == tail;
  }

  /** The leading word of a word followed by whitespace or nothing is that word. */
  lemma {:induction false} LeadingWordOf(w: string, tail: string)
    requires NoSpace(w)
    requires tail == [] || IsSpace(tail[0])
    ensures LeadingWord(w + tail) == w
  {
    if w != [] {
      assert (w + tail)[1..] == w[1..] + tail;
      LeadingWordOf(w[1..], tail);
    } else {
      assert w + tail == tail;
    }
  }

  // ---------------------------------------------------------------------
  // substring test
  // ---------------------------------------------------------------------

  /** `w` occurs in `s` starting at index `i`. */
  predicate OccursAt(s: string, w: string, i: int) {
    0 <= i && i + |w| <= |s| && s[i..i + |w|] == w
  }

  /** An occurrence at a known position makes `w in s` true. */
  lemma ContainsAt(s: string, w: string, i: int)
    requires OccursAt(s, w, i)
    ensures Contains(s, w)
  {
  }

  /** `w in s` on strings: `w` occurs somewhere in `s`. */
  function Contains(s: string, w: string): (b: bool)
    ensures b <==> exists i :: OccursAt(s, w, i)
  {
    if w <= s then
      assert OccursAt(s, w, 0);
      true
    else if s == [] then
      assert forall i :: !OccursAt(s, w, i);
      false
    else
      var b := Contains(s[1..], w);
      assert b ==> exists i :: OccursAt(s, w, i) by {
        if b {
          var i :| OccursAt(s[1..], w, i);
          assert s[1..][i..i + |w|] == s[i + 1..i + 1 + |w|];
          assert OccursAt(s, w, i + 1);
        }
      }
      assert (exists i :: OccursAt(s, w, i)) ==> b by {
        if exists i :: OccursAt(s, w, i) {
          var i :| OccursAt(s, w, i);
          assert i > 0;
          assert s[1..][i - 1..i - 1 + |w|] == s[i..i + |w|];
          assert OccursAt(s[1..], w, i - 1);
        }
      }
      b
  }
}
