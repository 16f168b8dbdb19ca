/** Strings stored as rows of a character buffer (src/core/IodaUtils.cc). */
module CharArrays {
  import opened Seqs

  const WhiteSpace := {' ', '\t', '\n', '\r', 0x0C as char, 0x0B as char, '\0'}

  /** What is left of a row once trailing white space is dropped. */
  function Strip(s: string): string {
    if s != [] && s[|s| - 1] in WhiteSpace then Strip(s[..|s| - 1]) else s
  }

  predicate IsTrimmed(s: string) {
    s == [] || s[|s| - 1] !in WhiteSpace
  }

  /** Stripping gives the one trimmed prefix that leaves only white space behind. */
  lemma {:induction false} StripIsTrimmedPrefix(s: string, t: string)
    requires t <= s
    ensures t == Strip(s) <==> IsTrimmed(t) && forall j :: |t| <= j < |s| ==> s[j] in WhiteSpace
  {
    if s != [] && s[|s| - 1] in WhiteSpace {
      var u := s[..|s| - 1];
      if t <= u {
        StripIsTrimmedPrefix(u, t);
      } else {
        assert t == s;
        StripIsPrefix(u);
      }
    } else {
      assert t != s ==> |t| < |s|;
    }
  }

  lemma {:induction false} StripIsPrefix(s: string)
    ensures Strip(s) <= s
  {
    if s != [] && s[|s| - 1] in WhiteSpace {
      StripIsPrefix(s[..|s| - 1]);
    }
  }

  /** The characters dropped from the end: blank, tab, line feed, carriage return, form feed, vertical tab and NUL. */
  lemma StripsSeven(s: string, c: char)
    ensures if c as int in {32, 9, 10, 13, 12, 11, 0} then Strip(s + [c]) == Strip(s) else Strip(s + [c]) == s + [c]
    ensures Strip([]) == []
  {
    assert (s + [c])[..|s|] == s;
  }

  /** A row: the string, cut or filled with blanks to the row length. */
  function Row(s: string, len: nat): (row: string)
    ensures |row| == len
  {
    seq(len, j requires 0 <= j < len => if j < |s| then s[j] else ' ')
  }

  method CharShapeFromStringVector(ss: seq<string>) returns (n: nat, len: nat)
    ensures n == |ss|
    ensures forall i :: 0 <= i < |ss| ==> |ss[i]| <= len
    ensures len == 0 || exists i :: 0 <= i < |ss| && |ss[i]| == len
  {
    len := 0;
    for i := 0 to |ss|
      invariant forall k :: 0 <= k < i ==> |ss[k]| <= len
      invariant len == 0 || exists k :: 0 <= k < i && |ss[k]| == len
    {
      if |ss[i]| > len {
        len := |ss[i]|;
      }
    }
    n := |ss|;
  }

  lemma RowsApart(i: nat, k: nat, n: nat, len: nat)
    requires i < k <= n
    ensures i * len + len <= k * len <= n * len
  {
    MulMonotone(i + 1, k, len);
    MulMonotone(k, n, len);
  }

  /** Writes one row. */
  method WriteRow(s: string, data: array<char>, start: nat, len: nat)
    requires start + len <= data.Length
    modifies data
    ensures data[..] == old(data[..start]) + Row(s, len) + old(data[start + len..])
  {
    for j := 0 to len
      invariant data[..start] == old(data[..start])
      invariant data[start..start + j] == Row(s, len)[..j]
      invariant data[start + j..] == old(data[start + j..])
    {
      if j < |s| {
        data[start + j] := s[j];
      } else {
        data[start + j] := ' ';
      }
      assert data[start..start + j + 1] == data[start..start + j] + [data[start + j]];
    }
  }

  lemma Spliced(before: seq<char>, after: seq<char>, start: nat, row: string)
    requires start + |row| <= |before| && after == before[..start] + row + before[start + |row|..]
    ensures |after| == |before| && after[..start] == before[..start]
    ensures after[start..start + |row|] == row && after[start + |row|..] == before[start + |row|..]
  {
  }

  /** Row `i` of the buffer, for rows of length `len`. */
  ghost predicate RowIs(data: seq<char>, len: nat, i: nat, row: string) {
    0 <= i * len <= i * len + len <= |data| && data[i * len..i * len + len] == row
  }

  lemma RowKept(before: seq<char>, after: seq<char>, len: nat, k: nat, i: nat, row: string)
    requires k < i && i * len <= |before| == |after| && after[..i * len] == before[..i * len]
             && RowIs(before, len, k, row)
    ensures RowIs(after, len, k, row)
  {
    RowsApart(k, i, i, len);
    var a, b := k * len, k * len + len;
    assert after[a..b] == after[..i * len][a..b];
    assert before[a..b] == before[..i * len][a..b];
  }

  /** The rows written so far, and what is beyond them. */
  ghost predicate AreWritten(ss: seq<string>, len: nat, data: seq<char>, original: seq<char>, i: nat, start: nat) {
    && i <= |ss| && start <= |data| == |original| && data[start..] == original[start..]
    && forall k :: 0 <= k < i ==> RowIs(data, len, k, Row(ss[k], len))
  }

  lemma RowWritten(ss: seq<string>, n: nat, len: nat, before: seq<char>, after: seq<char>, original: seq<char>, i: nat,
                   start: nat)
    requires i < n <= |ss| && start == i * len && n * len <= |before| && AreWritten(ss, len, before, original, i, start)
    requires start + len <= |before| == |after|
    requires after[..start] == before[..start] && after[start..start + len] == Row(ss[i], len)
    requires after[start + len..] == before[start + len..]
    ensures AreWritten(ss, len, after, original, i + 1, start + len)
  {
    forall k | 0 <= k < i
      ensures RowIs(after, len, k, Row(ss[k], len))
    {
      RowKept(before, after, len, k, i, Row(ss[k], len));
    }
    assert before[start + len..] == before[start..][len..];
    assert original[start + len..] == original[start..][len..];
  }

  method StringVectorToCharArray(ss: seq<string>, n: nat, len: nat, data: array<char>)
    requires n <= |ss| && n * len <= data.Length
    modifies data
    ensures forall i :: 0 <= i < n ==> RowIs(data[..], len, i, Row(ss[i], len))
    ensures data[n * len..] == old(data[n * len..])
  {
    ghost var start, original := 0, data[..];
    for i := 0 to n
      invariant start == i * len && AreWritten(ss, len, data[..], original, i, start)
    {
      RowsApart(i, i + 1, n, len);
      ghost var before := data[..];
      WriteRow(ss[i], data, i * len, len);
      ghost var after := data[..];
      Spliced(before, after, start, Row(ss[i], len));
      RowWritten(ss, n, len, before, after, original, i, start);
      start := start + len;
    }
  }

  /** The last position not holding white space, or -1. */
  method FindLastNotOf(s: string) returns (last: int)
    ensures -1 <= last < |s| && s[..last + 1] == Strip(s)
  {
    last := |s| - 1;
    assert s[..|s|] == s;
    while last >= 0 && s[last] in WhiteSpace
      invariant -1 <= last < |s|
      invariant Strip(s[..last + 1]) == Strip(s)
    {
      assert s[..last + 1][..last] == s[..last];
      last := last - 1;
    }
  }

  method CharArrayToStringVector(data: array<char>, n: nat, len: nat) returns (ss: seq<string>)
    requires n * len <= data.Length
    ensures |ss| == n
    ensures forall i, row :: 0 <= i < n && RowIs(data[..], len, i, row) ==> ss[i] == Strip(row)
  {
    ss := [];
    for i := 0 to n
      invariant |ss| == i
      invariant forall k, row :: 0 <= k < i && RowIs(data[..], len, k, row) ==> ss[k] == Strip(row)
    {
      RowsApart(i, i + 1, n, len);
      var row: string := [];
      for j := 0 to len
        invariant row == data[i * len..i * len + j]
      {
        row := row + [data[i * len + j]];
      }
      var last := FindLastNotOf(row);
      ss := ss + [row[..last + 1]];
    }
  }

  // ----- Round trips

  /** Blanks added at the end do not survive. */
  lemma {:induction false} StripRow(s: string, len: nat)
    requires |s| <= len
    ensures Strip(Row(s, len)) == Strip(s)
  {
    if |s| == len {
      assert Row(s, len) == s;
    } else {
      StripRow(s, len - 1);
      assert Row(s, len)[..len - 1] == Row(s, len - 1);
    }
  }

  /** Writing strings and reading them back strips them, and changes nothing else. */
  method RoundTrip(ss: seq<string>) returns (back: seq<string>)
    ensures |back| == |ss| && forall i :: 0 <= i < |ss| ==> back[i] == Strip(ss[i])
  {
    var n, len := CharShapeFromStringVector(ss);
    assert 0 <= n * len by { MulMonotone(0, n, len); }
    var data := new char[n * len];
    StringVectorToCharArray(ss, n, len, data);
    back := CharArrayToStringVector(data, n, len);
    forall i | 0 <= i < |ss|
      ensures back[i] == Strip(ss[i])
    {
      StripRow(ss[i], len);
    }
  }

  /** The strings that come back unchanged are those without trailing white space. */
  lemma UnchangedExactly(s: string)
    ensures Strip(s) == s <==> IsTrimmed(s)
  {
    StripIsTrimmedPrefix(s, s);
  }

  /** Reading a row and writing it back restores it if its trailing white space is blanks. */
  lemma RowRoundTrip(row: string)
    ensures Row(Strip(row), |row|) == row <==> forall j :: |Strip(row)| <= j < |row| ==> row[j] == ' '
  {
    StripIsPrefix(row);
    var again := Row(Strip(row), |row|);
    assert forall j :: 0 <= j < |Strip(row)| ==> again[j] == row[j];
    assert forall j :: |Strip(row)| <= j < |row| ==> again[j] == ' ';
    if again == row {
      forall j | |Strip(row)| <= j < |row|
        ensures row[j] == ' '
      {
        assert again[j] == ' ';
      }
    }
  }
}
