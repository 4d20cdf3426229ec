/** The line-offset index of one file: the offsets of its '\n' characters,
    filled into an array in one pass, and the binary search that turns an
    offset into a 1-based line and column. */
module LineIndex {
  import opened Utf16

  /** A 1-based line and column. */
  datatype Position = Position(line: int, column: int)

  /** Reference definition of the position reached after reading the first
      `n` code units of `text` one by one, starting at line 1, column 1: a
      '\n' opens the next line at column 1, any other code unit moves one
      column right. */
  ghost function Scan(text: Text, n: nat): Position
    requires n <= |text|
  {
    if n == 0 then Position(1, 1)
    else
      var p := Scan(text, n - 1);
      if text[n - 1] == LineFeed then Position(p.line + 1, 1)
      else Position(p.line, p.column + 1)
  }

  /** The offsets of the '\n' characters among the first `n` code units of
      `text`, in the order a left-to-right pass meets them. */
  ghost function Breaks(text: Text, n: nat): (r: seq<int>)
    requires n <= |text|
    ensures |r| <= n
    ensures forall j :: 0 <= j < |r| ==> 0 <= r[j] < n && text[r[j]] == LineFeed
  {
    if n == 0 then []
    else Breaks(text, n - 1) + (if text[n - 1] == LineFeed then [n - 1] else [])
  }

  /** Every '\n' among the first `n` characters is recorded. */
  lemma {:induction false} BreaksComplete(text: Text, n: nat)
    requires n <= |text|
    ensures forall i :: 0 <= i < n && text[i] == LineFeed ==> i in Breaks(text, n)
  {
    if n > 0 {
      BreaksComplete(text, n - 1);
      assert Breaks(text, n - 1) <= Breaks(text, n);
    }
  }

  /** There are as many entries as there are '\n' characters. */
  lemma {:induction false} BreaksCount(text: Text, n: nat)
    requires n <= |text|
    ensures |Breaks(text, n)| == multiset(text[..n])[LineFeed]
  {
    if n > 0 {
      BreaksCount(text, n - 1);
      assert text[..n] == text[..n - 1] + [text[n - 1]];
    }
  }

  /** The offsets are recorded in strictly increasing order. */
  lemma {:induction false} BreaksIncreasing(text: Text, n: nat)
    requires n <= |text|
    ensures forall j, k :: 0 <= j < k < |Breaks(text, n)| ==> Breaks(text, n)[j] < Breaks(text, n)[k]
  {
    if n > 0 {
      BreaksIncreasing(text, n - 1);
    }
  }

  /** Non-decreasing order, which the binary search relies on. */
  ghost predicate Sorted(s: seq<int>) {
    forall j, k :: 0 <= j < k < |s| ==> s[j] <= s[k]
  }

  /** Brute-force reference: the number of entries of `s` strictly below `x`. */
  ghost function CountBelow(s: seq<int>, x: int): (r: nat)
    ensures r <= |s|
  {
    if s == [] then 0 else (if s[0] < x then 1 else 0) + CountBelow(s[1..], x)
  }

  /** A split point with every entry before it below `x` and every entry from it
      on at least `x` is the brute-force count. */
  lemma {:induction false} CountBelowAtSplit(s: seq<int>, x: int, r: int)
    requires 0 <= r <= |s|
    requires forall j :: 0 <= j < r ==> s[j] < x
    requires forall j :: r <= j < |s| ==> s[j] >= x
    ensures CountBelow(s, x) == r
  {
    if s != [] {
      CountBelowAtSplit(s[1..], x, if r == 0 then 0 else r - 1);
    }
  }

  /** The '\n' offsets before `k` are the first entries of all the offsets
      before `n`, and every later entry lies at or after `k`. */
  lemma {:induction false} BreaksOfPrefix(text: Text, k: nat, n: nat)
    requires k <= n <= |text|
    ensures |Breaks(text, k)| <= |Breaks(text, n)|
    ensures Breaks(text, n)[..|Breaks(text, k)|] == Breaks(text, k)
    ensures forall j :: |Breaks(text, k)| <= j < |Breaks(text, n)| ==> Breaks(text, n)[j] >= k
    decreases n - k
  {
    if k < n {
      BreaksOfPrefix(text, k, n - 1);
    }
  }

  /** Splitting the '\n' offsets of `text` at `index`: the entries below
      `index` are exactly those recorded before `index`. */
  lemma BreaksBefore(text: Text, index: nat)
    requires index <= |text|
    ensures CountBelow(Breaks(text, |text|), index) == |Breaks(text, index)|
    ensures Breaks(text, |text|)[..|Breaks(text, index)|] == Breaks(text, index)
  {
    var all := Breaks(text, |text|);
    var before := Breaks(text, index);
    BreaksOfPrefix(text, index, |text|);
    assert forall j :: 0 <= j < |before| ==> all[j] == before[j] < index;
    CountBelowAtSplit(all, index, |before|);
  }

  /** Where the line after the given '\n' offsets starts: 0 when there are
      none, else one past the last. */
  ghost function LastLineStart(breaks: seq<int>): int {
    if breaks == [] then 0 else breaks[|breaks| - 1] + 1
  }

  /** The scan and the '\n' offsets agree: the line is one more than the number
      of '\n' characters read, and the column is the distance from the start
      of the last line, plus one. */
  lemma {:induction false} ScanByBreaks(text: Text, n: nat)
    requires n <= |text|
    ensures Scan(text, n) == Position(|Breaks(text, n)| + 1, n - LastLineStart(Breaks(text, n)) + 1)
  {
    if n > 0 {
      ScanByBreaks(text, n - 1);
      var b := Breaks(text, n - 1);
      if text[n - 1] == LineFeed {
        assert Breaks(text, n) == b + [n - 1];
      } else {
        assert Breaks(text, n) == b;
      }
    }
  }

  /** The '\n' array of `processFile`: one pass over `content` stores each
      '\n' offset at `lineBreaks[count]` and advances `count`. */
  method BuildLineBreaks(content: Text) returns (lineBreaks: array<int>, count: nat)
    ensures fresh(lineBreaks) && lineBreaks.Length == |content|
    ensures count <= lineBreaks.Length
    ensures lineBreaks[..count] == Breaks(content, |content|)
    ensures count == multiset(content)[LineFeed]
  {
    lineBreaks := new int[|content|];
    count := 0;
    for i := 0 to |content|
      invariant count <= i
      invariant lineBreaks[..count] == Breaks(content, i)
    {
      if content[i] == LineFeed {
        lineBreaks[count] := i;
        count := count + 1;
      }
    }
    BreaksCount(content, |content|);
    assert content[..|content|] == content;
  }

  /** `countLineBreaksBefore`: a binary search over the first `count` entries
      for the number of them strictly below `index`. */
  method CountLineBreaksBefore(lineBreaks: array<int>, count: int, index: int) returns (r: int)
    requires 0 <= count <= lineBreaks.Length
    requires Sorted(lineBreaks[..count])
    ensures 0 <= r <= count
    ensures forall j :: 0 <= j < r ==> lineBreaks[j] < index
    ensures forall j :: r <= j < count ==> lineBreaks[j] >= index
    ensures r == CountBelow(lineBreaks[..count], index)
  {
    var lo, hi, ans := 0, count - 1, -1;
    while lo <= hi
      invariant lo == ans + 1 && 0 <= lo <= hi + 1 <= count
      invariant forall j :: 0 <= j <= ans ==> lineBreaks[j] < index
      invariant forall j :: hi < j < count ==> lineBreaks[j] >= index
    {
      // `(lo + hi) ushr 1`: both are non-negative, so the unsigned shift is
      // exact halving even where the 32-bit sum would read as negative.
      var mid := (lo + hi) / 2;
      var v := lineBreaks[mid];
      if v < index {
        assert forall j :: 0 <= j <= mid ==> lineBreaks[..count][j] <= lineBreaks[..count][mid];
        ans := mid;
        lo := mid + 1;
      } else {
        assert forall j :: mid <= j < count ==> lineBreaks[..count][mid] <= lineBreaks[..count][j];
        hi := mid - 1;
      }
    }
    r := ans + 1;
    CountBelowAtSplit(lineBreaks[..count], index, r);
  }

  /** Lines 142-144 of `processFile`: the line is one more than the number of
      breaks before `index`, the line starts one past the last such break (or
      at 0), and the column is the distance from that start plus one. The
      result is the position a scan one code unit at a time reaches, and for a
      line after the first, entry `line - 2` is the last break before `index`. */
  method Locate(lineBreaks: array<int>, count: int, index: int, ghost content: Text)
    returns (line: int, column: int)
    requires 0 <= count <= lineBreaks.Length
    requires lineBreaks[..count] == Breaks(content, |content|)
    requires 0 <= index <= |content|
    ensures line >= 1 && column >= 1
    ensures Position(line, column) == Scan(content, index)
    ensures line > 1 ==> line - 2 < count && lineBreaks[line - 2] < index
    ensures line - 1 < count ==> lineBreaks[line - 1] >= index
  {
    BreaksSorted(content);
    var n := CountLineBreaksBefore(lineBreaks, count, index);
    line := 1 + n;
    var lineStart := if line == 1 then 0 else lineBreaks[line - 2] + 1;
    column := index - lineStart + 1;
    LineOfCount(content, index, n);
    assert line > 1 ==> lineBreaks[line - 2] == lineBreaks[..count][n - 1];
  }

  /** The '\n' offsets are in order, as the binary search needs. */
  lemma BreaksSorted(text: Text)
    ensures Sorted(Breaks(text, |text|))
  {
    BreaksIncreasing(text, |text|);
  }

  /** With `n` breaks strictly below `index`, the scanned position of `index`
      is on line `n + 1`, its line starting one past break `n - 1` (or at 0). */
  lemma LineOfCount(text: Text, index: nat, n: int)
    requires index <= |text|
    requires n == CountBelow(Breaks(text, |text|), index)
    ensures n == |Breaks(text, index)|
    ensures var start := if n == 0 then 0 else Breaks(text, |text|)[n - 1] + 1;
      Scan(text, index) == Position(n + 1, index - start + 1)
  {
    BreaksBefore(text, index);
    var before := Breaks(text, index);
    if n > 0 {
      assert Breaks(text, |text|)[n - 1] == before[n - 1];
    }
    ScanByBreaks(text, index);
  }

  /** An offset that holds a '\n' belongs to the line that '\n' ends: the
      comparison `v < index` is strict, so that break is not yet counted and
      is exactly the next entry of the index. */
  lemma BreakOffsetEndsItsLine(content: Text, k: nat)
    requires k < |content| && content[k] == LineFeed
    ensures CountBelow(Breaks(content, |content|), k) < |Breaks(content, |content|)|
    ensures Breaks(content, |content|)[CountBelow(Breaks(content, |content|), k)] == k
    ensures Scan(content, k).line == CountBelow(Breaks(content, |content|), k) + 1
  {
    var all := Breaks(content, |content|);
    var before := Breaks(content, k);
    BreaksBefore(content, k);
    assert Breaks(content, k + 1) == before + [k];
    BreaksOfPrefix(content, k + 1, |content|);
    assert all[|before|] == all[..|before| + 1][|before|];
    ScanByBreaks(content, k);
  }
}
