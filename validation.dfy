/** The guards at the top of `onStart`: the directory text is trimmed, and
    the request is refused when either input is empty or when the trimmed
    path does not name a directory. */
module Validation {
  import opened Wrappers
  import opened Utf16

  /** Kotlin's `Char.isWhitespace()` on the JVM: Java's `isWhitespace` or
      `isSpaceChar`, i.e. the ASCII controls tab, line feed, vertical tab,
      form feed, carriage return and the four separators 0x1C-0x1F, and every
      space, line or paragraph separator of Unicode. It looks at one code
      unit, so neither half of a surrogate pair is whitespace. */
  predicate IsWhitespace(c: CodeUnit) {
    || 0x09 <= c <= 0x0D
    || 0x1C <= c <= 0x20
    || c == 0xA0 || c == 0x1680
    || 0x2000 <= c <= 0x200A
    || c == 0x2028 || c == 0x2029 || c == 0x202F || c == 0x205F || c == 0x3000
  }

  /** The index of the first non-whitespace character at or after `i`, or
      `|s|` when there is none. */
  function LeadingBlanks(s: Text, i: nat): (n: nat)
    requires i <= |s|
    ensures i <= n <= |s|
    ensures forall k :: i <= k < n ==> IsWhitespace(s[k])
    ensures n < |s| ==> !IsWhitespace(s[n])
    decreases |s| - i
  {
    if i < |s| && IsWhitespace(s[i]) then LeadingBlanks(s, i + 1) else i
  }

  /** The end of `s[lo..j]` once its trailing whitespace is dropped. */
  function TrailingEnd(s: Text, lo: nat, j: nat): (n: nat)
    requires lo <= j <= |s|
    ensures lo <= n <= j
    ensures forall k :: n <= k < j ==> IsWhitespace(s[k])
    ensures n > lo ==> !IsWhitespace(s[n - 1])
  {
    if j > lo && IsWhitespace(s[j - 1]) then TrailingEnd(s, lo, j - 1) else j
  }

  /** `String.trim()`: `s` without its leading and trailing whitespace. */
  function Trim(s: Text): (r: Text)
    ensures |r| <= |s|
    ensures r != [] ==> !IsWhitespace(r[0]) && !IsWhitespace(r[|r| - 1])
  {
    var a := LeadingBlanks(s, 0);
    s[a..TrailingEnd(s, a, |s|)]
  }

  /** What `trim` keeps is a contiguous part of the input, everything it
      drops is whitespace, and what it keeps has whitespace on neither end. */
  lemma TrimIsInnerSlice(s: Text)
    ensures exists a, b ::
      (0 <= a <= b <= |s| && Trim(s) == s[a..b] &&
       (forall k :: 0 <= k < a ==> IsWhitespace(s[k])) &&
       (forall k :: b <= k < |s| ==> IsWhitespace(s[k])))
    ensures Trim(s) != [] ==> !IsWhitespace(Trim(s)[0]) && !IsWhitespace(Trim(s)[|Trim(s)| - 1])
  {
    var a := LeadingBlanks(s, 0);
    var b := TrailingEnd(s, a, |s|);
    assert Trim(s) == s[a..b];
    if a < b {
      assert Trim(s)[0] == s[a];
      assert Trim(s)[|Trim(s)| - 1] == s[b - 1];
    }
  }

  /** `trim` leaves nothing exactly when every character is whitespace. */
  lemma TrimBlank(s: Text)
    ensures Trim(s) == [] <==> forall i :: 0 <= i < |s| ==> IsWhitespace(s[i])
  {
    var a := LeadingBlanks(s, 0);
    var b := TrailingEnd(s, a, |s|);
    assert |Trim(s)| == b - a;
    if a < |s| {
      assert a < b;
    }
  }

  /** A request that passed the guards. */
  datatype Request = Request(directory: Text, query: Text)

  /** Why a request was refused: one of the inputs is empty, or the path does
      not name a directory. */
  datatype Rejection = MissingInput | NotADirectory(directory: Text)

  /** The guards of `onStart`, in their order. `isDirectory` stands for
      `Files.isDirectory(Paths.get(directory))`. */
  function Validate(dirText: Text, query: Text, isDirectory: Text -> bool): (r: Result<Request, Rejection>)
    ensures r.Success? ==>
      r.value == Request(Trim(dirText), query) && r.value.directory != [] && query != [] &&
      isDirectory(r.value.directory)
    ensures r.Failure? ==> (r.error == MissingInput <==> Trim(dirText) == [] || query == [])
    ensures r.Failure? && r.error.NotADirectory? ==>
      r.error.directory == Trim(dirText) && !isDirectory(r.error.directory)
  {
    var directory := Trim(dirText);
    if directory == [] || query == [] then Failure(MissingInput)
    else if !isDirectory(directory) then Failure(NotADirectory(directory))
    else Success(Request(directory, query))
  }

  /** A request is accepted exactly when the trimmed directory and the query
      are both non-empty and the directory exists; an accepted request carries
      the trimmed path, free of surrounding whitespace. */
  lemma ValidateAccepts(dirText: Text, query: Text, isDirectory: Text -> bool)
    ensures Validate(dirText, query, isDirectory).Success? <==>
      (exists i :: 0 <= i < |dirText| && !IsWhitespace(dirText[i])) && query != [] &&
      isDirectory(Trim(dirText))
    ensures Validate(dirText, query, isDirectory).Success? ==>
      var req := Validate(dirText, query, isDirectory).value;
      req.query == query && req.directory == Trim(dirText) && req.directory != [] &&
      !IsWhitespace(req.directory[0]) && !IsWhitespace(req.directory[|req.directory| - 1])
  {
    TrimIsInnerSlice(dirText);
    TrimBlank(dirText);
  }

  /** A directory made only of whitespace, or an empty query, is refused as
      missing input before the directory is looked up. */
  lemma ValidateRejectsMissingInput(dirText: Text, query: Text, isDirectory: Text -> bool)
    ensures Validate(dirText, query, isDirectory) == Failure(MissingInput) <==>
      query == [] || forall i :: 0 <= i < |dirText| ==> IsWhitespace(dirText[i])
  {
    TrimIsInnerSlice(dirText);
    TrimBlank(dirText);
  }

  /** A non-blank path that does not name a directory is refused with that
      trimmed path, and only then. */
  lemma ValidateRejectsMissingDirectory(dirText: Text, query: Text, isDirectory: Text -> bool)
    ensures Validate(dirText, query, isDirectory).Failure? &&
            Validate(dirText, query, isDirectory).error.NotADirectory? <==>
      query != [] && (exists i :: 0 <= i < |dirText| && !IsWhitespace(dirText[i])) &&
      !isDirectory(Trim(dirText))
    ensures Validate(dirText, query, isDirectory).Failure? &&
            Validate(dirText, query, isDirectory).error.NotADirectory? ==>
      Validate(dirText, query, isDirectory).error.directory == Trim(dirText)
  {
    TrimIsInnerSlice(dirText);
    TrimBlank(dirText);
  }
}
