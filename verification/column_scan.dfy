/** The scan of the first line of a matrix file that fixes the column count
    of the C program's reader: it walks a NUL-terminated buffer with a
    pointer and counts the numbers it meets. */
module ColumnScan {

  /** Characters that end a number: space, tab and newline. */
  predicate IsDelimiter(c: char)
  {
    c == ' ' || c == '\t' || c == '\n'
  }

  /** Characters that begin a number: a digit or a sign. */
  predicate IsNumberStart(c: char)
  {
    ('0' <= c <= '9') || c == '-' || c == '+'
  }

  /** The character the pointer sees at position p of the buffer; a buffer is
      read as if it were followed by its terminating NUL. */
  function At(s: seq<char>, p: int): char
  {
    if 0 <= p < |s| then s[p] else '\0'
  }

  /** The length of the C string held in s: the position of its first NUL, or
      |s| when it has none. */
  function StrLen(s: seq<char>): (n: nat)
    ensures n <= |s|
    ensures forall k :: 0 <= k < n ==> s[k] != '\0'
    ensures n < |s| ==> s[n] == '\0'
  {
    if s == [] || s[0] == '\0' then 0 else 1 + StrLen(s[1..])
  }

  /** The length of the run of non-delimiters at the front of t. */
  function WordLength(t: seq<char>): (m: nat)
    ensures m <= |t|
    ensures forall k :: 0 <= k < m ==> !IsDelimiter(t[k])
    ensures m < |t| ==> IsDelimiter(t[m])
  {
    if t == [] || IsDelimiter(t[0]) then 0 else 1 + WordLength(t[1..])
  }

  /** Some character of w begins a number. */
  predicate HasNumberChar(w: seq<char>)
  {
    exists k :: 0 <= k < |w| && IsNumberStart(w[k])
  }

  /** The reference count: the number of maximal runs of non-delimiters in t
      that contain at least one digit or sign. */
  function NumericWords(t: seq<char>): nat
    decreases |t|
  {
    if t == [] then 0
    else if IsDelimiter(t[0]) then NumericWords(t[1..])
    else
      var m := WordLength(t);
      (if HasNumberChar(t[..m]) then 1 else 0) + NumericWords(t[m..])
  }

  /** The column count of a first line held in a NUL-terminated buffer. */
  function Columns(buffer: seq<char>): nat
  {
    NumericWords(buffer[..StrLen(buffer)])
  }

  /** The column counter of `leer_matriz`. It skips spaces and tabs; at a digit
      or sign it counts one column and skips to the next space, tab, newline
      or the end; any other character it skips by itself. The count is the
      number of space-, tab- or newline-separated words of the string that
      contain a digit or a sign. */
  method CountColumns(buffer: seq<char>) returns (cols: int)
    ensures cols == Columns(buffer)
  {
    ghost var t := buffer[..StrLen(buffer)];
    var p := 0;
    cols := 0;
    while At(buffer, p) != '\0'
      invariant 0 <= p <= |t|
      invariant cols + NumericWords(t[p..]) == NumericWords(t)
      decreases |t| - p
    {
      AtInString(buffer, p);
      var q := SkipBlanks(buffer, p);
      AtInString(buffer, q);
      if IsNumberStart(At(buffer, q)) {
        cols := cols + 1;
        p := SkipNumber(buffer, q);
      } else if At(buffer, q) != '\0' {
        SkipNonNumber(t[q..]);
        assert t[q..][1..] == t[q + 1..];
        p := q + 1;
      } else {
        p := q;
      }
    }
  }

  /** The pointer moved past spaces and tabs; the count of what follows is
      unchanged. */
  method SkipBlanks(buffer: seq<char>, p: int) returns (q: int)
    requires 0 <= p <= StrLen(buffer)
    ensures p <= q <= StrLen(buffer)
    ensures At(buffer, q) != ' ' && At(buffer, q) != '\t'
    ensures forall k :: p <= k < q ==> buffer[k] == ' ' || buffer[k] == '\t'
    ensures q > p || At(buffer, q) == At(buffer, p)
    ensures NumericWords(buffer[..StrLen(buffer)][q..]) == NumericWords(buffer[..StrLen(buffer)][p..])
  {
    ghost var t := buffer[..StrLen(buffer)];
    q := p;
    while At(buffer, q) == ' ' || At(buffer, q) == '\t'
      invariant p <= q <= |t|
      invariant forall k :: p <= k < q ==> buffer[k] == ' ' || buffer[k] == '\t'
      invariant NumericWords(t[q..]) == NumericWords(t[p..])
      invariant q > p || At(buffer, q) == At(buffer, p)
      decreases |t| - q
    {
      AtInString(buffer, q);
      assert t[q..][1..] == t[q + 1..];
      q := q + 1;
    }
  }

  /** The pointer moved from a digit or sign to the next space, tab, newline
      or the end of the string; what it passed was one counted word. */
  method SkipNumber(buffer: seq<char>, p: int) returns (q: int)
    requires 0 <= p <= StrLen(buffer) && IsNumberStart(At(buffer, p))
    ensures p < q <= StrLen(buffer)
    ensures q == p + WordLength(buffer[..StrLen(buffer)][p..])
    ensures NumericWords(buffer[..StrLen(buffer)][p..]) == 1 + NumericWords(buffer[..StrLen(buffer)][q..])
  {
    ghost var t := buffer[..StrLen(buffer)];
    AtInString(buffer, p);
    q := p;
    while At(buffer, q) != '\0' && At(buffer, q) != ' ' && At(buffer, q) != '\t' && At(buffer, q) != '\n'
      invariant p <= q <= |t|
      invariant forall k :: p <= k < q ==> !IsDelimiter(t[k])
      decreases |t| - q
    {
      AtInString(buffer, q);
      q := q + 1;
    }
    AtInString(buffer, q);
    WordLengthIs(t[p..], q - p);
    WordCounted(t[p..], q - p);
    assert t[p..][q - p..] == t[q..];
  }

  /** Within the string, the pointer sees the string's characters; at its end,
      the NUL. */
  lemma AtInString(buffer: seq<char>, p: int)
    requires 0 <= p <= StrLen(buffer)
    ensures At(buffer, p) == if p < StrLen(buffer) then buffer[..StrLen(buffer)][p] else '\0'
  {
  }

  /** WordLength is the first delimiter position: any m before which there is
      no delimiter and at which there is one (or the end) is it. */
  lemma {:induction false} WordLengthIs(u: seq<char>, m: nat)
    requires m <= |u|
    requires forall k :: 0 <= k < m ==> !IsDelimiter(u[k])
    requires m == |u| || IsDelimiter(u[m])
    ensures WordLength(u) == m
  {
    if m > 0 {
      WordLengthIs(u[1..], m - 1);
    }
  }

  /** A word that begins with a digit or sign, running up to position m, counts
      once, and counting resumes at m. */
  lemma WordCounted(u: seq<char>, m: nat)
    requires 0 < m <= |u| && IsNumberStart(u[0])
    requires forall k :: 0 <= k < m ==> !IsDelimiter(u[k])
    requires m == |u| || IsDelimiter(u[m])
    ensures NumericWords(u) == 1 + NumericWords(u[m..])
  {
    WordLengthIs(u, m);
    assert u[..m][0] == u[0];
  }

  /** A character that does not begin a number can be skipped by itself
      without changing the count, even in the middle of a word. */
  lemma SkipNonNumber(u: seq<char>)
    requires |u| > 0 && !IsNumberStart(u[0])
    ensures NumericWords(u) == NumericWords(u[1..])
  {
    if !IsDelimiter(u[0]) {
      var m := WordLength(u);
      var v := u[1..];
      if m == 1 {
        assert !HasNumberChar(u[..1]);
        if v != [] { assert IsDelimiter(v[0]); }
      } else {
        assert WordLength(v) == m - 1;
        assert v[m - 1..] == u[m..];
        assert HasNumberChar(u[..m]) <==> HasNumberChar(v[..m - 1]) by {
          if HasNumberChar(u[..m]) {
            var k :| 0 <= k < m && IsNumberStart(u[..m][k]);
            assert k > 0;
            assert v[..m - 1][k - 1] == u[..m][k];
          }
          if HasNumberChar(v[..m - 1]) {
            var k :| 0 <= k < m - 1 && IsNumberStart(v[..m - 1][k]);
            assert u[..m][k + 1] == v[..m - 1][k];
          }
        }
      }
    }
  }

  /** A word followed by a delimiter or the end contributes one when it holds
      a digit or sign, and nothing otherwise. */
  lemma WordThenRest(w: seq<char>, rest: seq<char>)
    requires |w| > 0 && forall k :: 0 <= k < |w| ==> !IsDelimiter(w[k])
    requires rest == [] || IsDelimiter(rest[0])
    ensures NumericWords(w + rest) == (if HasNumberChar(w) then 1 else 0) + NumericWords(rest)
  {
    var u := w + rest;
    WordLengthIs(u, |w|);
    assert u[..|w|] == w;
    assert u[|w|..] == rest;
  }

  /** A number as it appears in the file: it begins with a digit or sign and
      holds no delimiter and no NUL. */
  predicate IsNumberToken(w: seq<char>)
  {
    && |w| > 0
    && IsNumberStart(w[0])
    && forall k :: 0 <= k < |w| ==> !IsDelimiter(w[k]) && w[k] != '\0'
  }

  /** The words of ws separated by single spaces. */
  function JoinWords(ws: seq<seq<char>>): seq<char>
  {
    if |ws| == 0 then []
    else if |ws| == 1 then ws[0]
    else ws[0] + [' '] + JoinWords(ws[1..])
  }

  /** A line of k numbers separated by single spaces and ended by a newline
      has k columns. */
  lemma {:induction false} NumbersLine(ws: seq<seq<char>>)
    requires forall i :: 0 <= i < |ws| ==> IsNumberToken(ws[i])
    ensures Columns(JoinWords(ws) + ['\n']) == |ws|
  {
    NoNulLine(ws);
    assert (JoinWords(ws) + ['\n'])[..|JoinWords(ws) + ['\n']|] == JoinWords(ws) + ['\n'];
    NumbersWords(ws);
  }

  /** The count of such a line, read up to its end. */
  lemma {:induction false} NumbersWords(ws: seq<seq<char>>)
    requires forall i :: 0 <= i < |ws| ==> IsNumberToken(ws[i])
    ensures NumericWords(JoinWords(ws) + ['\n']) == |ws|
  {
    var w := if |ws| == 0 then [] else ws[0];
    if |ws| == 1 {
      assert HasNumberChar(w) by { assert IsNumberStart(w[0]); }
      WordThenRest(w, ['\n']);
      assert NumericWords(['\n']) == NumericWords([]);
    } else if |ws| > 1 {
      assert HasNumberChar(w) by { assert IsNumberStart(w[0]); }
      var tail := JoinWords(ws[1..]) + ['\n'];
      assert JoinWords(ws) + ['\n'] == w + ([' '] + tail);
      WordThenRest(w, [' '] + tail);
      assert ([' '] + tail)[1..] == tail;
      NumbersWords(ws[1..]);
    } else {
      assert NumericWords(['\n']) == NumericWords([]);
    }
  }

  /** Such a line holds no NUL, so the whole of it is the C string. */
  lemma {:induction false} NoNulLine(ws: seq<seq<char>>)
    requires forall i :: 0 <= i < |ws| ==> IsNumberToken(ws[i])
    ensures StrLen(JoinWords(ws) + ['\n']) == |JoinWords(ws) + ['\n']|
  {
    NoNulJoin(ws);
    StrLenNoNul(JoinWords(ws) + ['\n']);
  }

  /** Joining numbers with spaces introduces no NUL. */
  lemma {:induction false} NoNulJoin(ws: seq<seq<char>>)
    requires forall i :: 0 <= i < |ws| ==> IsNumberToken(ws[i])
    ensures forall k :: 0 <= k < |JoinWords(ws)| ==> JoinWords(ws)[k] != '\0'
  {
    if |ws| > 1 {
      NoNulJoin(ws[1..]);
      var w, rest := ws[0], JoinWords(ws[1..]);
      assert JoinWords(ws) == w + [' '] + rest;
      forall k | 0 <= k < |JoinWords(ws)|
        ensures JoinWords(ws)[k] != '\0'
      {
        if k < |w| {
          assert JoinWords(ws)[k] == w[k];
        } else if k > |w| {
          assert JoinWords(ws)[k] == rest[k - |w| - 1];
        }
      }
    }
  }

  /** A sequence without NUL is a C string of its full length. */
  lemma {:induction false} StrLenNoNul(s: seq<char>)
    requires forall k :: 0 <= k < |s| ==> s[k] != '\0'
    ensures StrLen(s) == |s|
  {
    if s != [] {
      StrLenNoNul(s[1..]);
    }
  }
}
