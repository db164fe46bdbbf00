/**
 * The parts of Python's `str` and `list` behaviour that the style corrector relies on:
 * `str.isspace`, `str.strip`, `str.split`, `str.replace`, and list indexing, `insert`
 * and `del` with Python's negative-index and clamping rules.
 */
module PyText {
  import opened Wrappers

  /** The exceptions the modelled code can raise. */
  datatype PyException =
    | IndexError   // a list index outside the list
    | KeyError     // a violation record without the field a corrector reads
    | ValueError   // `min()` of an empty list
    | SyntaxError  // `ast.parse` of text that is not Python

  /** Python's `str.isspace` on one character (the Unicode White_Space and separator set). */
  predicate IsSpace(c: char) {
    || c == ' ' || c == '\t' || c == '\n' || c == '\r' || c == '\U{0B}' || c == '\U{0C}'
    || c == '\U{1C}' || c == '\U{1D}' || c == '\U{1E}' || c == '\U{1F}'
    || c == '\U{85}' || c == '\U{A0}' || c == '\U{1680}'
    || ('\U{2000}' <= c <= '\U{200A}')
    || c == '\U{2028}' || c == '\U{2029}' || c == '\U{202F}' || c == '\U{205F}' || c == '\U{3000}'
  }

  predicate AllSpace(s: string) {
    forall k :: 0 <= k < |s| ==> IsSpace(s[k])
  }

  /** Length of the run of whitespace at the start of `s`. */
  function LeadingSpaces(s: string): (n: nat)
    ensures n <= |s|
    ensures AllSpace(s[..n])
    ensures n == |s| || !IsSpace(s[n])
  {
    if s == [] || !IsSpace(s[0]) then 0 else 1 + LeadingSpaces(s[1..])
  }

  function LStrip(s: string): (r: string)
    ensures |r| <= |s| && r == s[|s| - |r|..]
    ensures AllSpace(s[..|s| - |r|])
    ensures r == [] || !IsSpace(r[0])
  {
    s[LeadingSpaces(s)..]
  }

  function RStrip(s: string): (r: string)
    ensures |r| <= |s| && r == s[..|r|]
    ensures AllSpace(s[|r|..])
    ensures r == [] || !IsSpace(r[|r| - 1])
  {
    if s == [] || !IsSpace(s[|s| - 1]) then s else RStrip(s[..|s| - 1])
  }

  /** Python's `str.strip()` with no argument. */
  function Strip(s: string): string {
    RStrip(LStrip(s))
  }

  /** `s.strip()` is empty exactly when every character of `s` is whitespace. */
  lemma StripEmptyIffAllSpace(s: string)
    ensures Strip(s) == [] <==> AllSpace(s)
  {
    var l := LStrip(s);
    if Strip(s) == [] {
      assert s == s[..|s| - |l|];
    } else {
      var k := |s| - |l|;
      assert l != [] && !IsSpace(l[0]) && s[k] == l[0];
    }
  }

  /** Stripping only removes characters: whatever is left was in `s`. */
  lemma StripKeepsOnly(s: string)
    ensures forall c :: c in Strip(s) ==> c in s
  {
    var l := LStrip(s);
    var r := RStrip(l);
    forall c | c in r
      ensures c in s
    {
      var k :| 0 <= k < |r| && r[k] == c;
      assert r[k] == l[k] == s[|s| - |l| + k];
    }
  }

  /** `s.split(pat)[0]`: the text before the first occurrence of `pat`, or all of `s`. */
  function PrefixBefore(s: string, pat: string): (r: string)
    requires pat != []
    ensures r <= s
    decreases |s|
  {
    if |s| < |pat| then s
    else if s[..|pat|] == pat then []
    else [s[0]] + PrefixBefore(s[1..], pat)
  }

  /** `s.replace(pat, rep)`: every non-overlapping occurrence, scanning left to right. */
  function ReplaceAll(s: string, pat: string, rep: string): string
    requires pat != []
    decreases |s|
  {
    if |s| < |pat| then s
    else if s[..|pat|] == pat then rep + ReplaceAll(s[|pat|..], pat, rep)
    else [s[0]] + ReplaceAll(s[1..], pat, rep)
  }

  /** `s.replace(" ", "")`: drops the spaces and keeps every other character in order. */
  function RemoveSpaces(s: string): (r: string)
    ensures ' ' !in r
  {
    if s == [] then []
    else (if s[0] == ' ' then [] else [s[0]]) + RemoveSpaces(s[1..])
  }

  /** The result is shorter by exactly the number of spaces in `s`. */
  lemma {:induction false} RemoveSpacesLength(s: string)
    ensures |RemoveSpaces(s)| == |s| - multiset(s)[' ']
  {
    if s != [] {
      assert s == [s[0]] + s[1..];
      RemoveSpacesLength(s[1..]);
    }
  }

  /** `s.split(sep)` for a one-character separator. */
  function Split(s: string, sep: char): (r: seq<string>)
    ensures |r| == multiset(s)[sep] + 1
    ensures forall k :: 0 <= k < |r| ==> sep !in r[k]
  {
    if s == [] then [[]]
    else
      assert s == [s[0]] + s[1..];
      var rest := Split(s[1..], sep);
      if s[0] == sep then [[]] + rest
      else [[s[0]] + rest[0]] + rest[1..]
  }

  /** `sep.join(parts)`. */
  function Join(parts: seq<string>, sep: char): string
    requires parts != []
  {
    if |parts| == 1 then parts[0] else parts[0] + [sep] + Join(parts[1..], sep)
  }

  /** Splitting and joining on the same separator gives the text back. */
  lemma {:induction false} JoinSplit(s: string, sep: char)
    ensures Join(Split(s, sep), sep) == s
  {
    if s != [] {
      JoinSplit(s[1..], sep);
      var rest := Split(s[1..], sep);
      if s[0] != sep && |rest| > 1 {
        assert Split(s, sep)[1..] == rest[1..];
      }
    }
  }

  /** Python's `list[i]` index resolution: negative indices count from the end. */
  function PyIndex(n: nat, i: int): (r: Option<nat>)
    ensures r.Some? <==> -(n as int) <= i < n
    ensures r.Some? ==> r.value < n
    ensures 0 <= i < n ==> r == Some(i)
  {
    if 0 <= i < n then Some(i) else if -(n as int) <= i < 0 then Some(i + n) else None
  }

  /** Python's `list.insert(i, x)`, which clamps `i` into the list instead of failing. */
  function PyInsert<T>(s: seq<T>, i: int, x: T): (r: seq<T>)
    ensures |r| == |s| + 1
  {
    var k := if i < 0 then (if i + |s| < 0 then 0 else i + |s|) else if i > |s| then |s| else i;
    s[..k] + [x] + s[k..]
  }

  /** Python's `del list[i]`. */
  function PyDelete<T>(s: seq<T>, i: int): (r: Result<seq<T>, PyException>)
    ensures r.Success? <==> -|s| <= i < |s|
    ensures r.Success? ==> |r.value| == |s| - 1
  {
    match PyIndex(|s|, i)
    case None => Failure(IndexError)
    case Some(k) => Success(s[..k] + s[k + 1..])
  }

  /** Python's slice bound: negative counts from the end, then clamped into `[0, n]`. */
  function SliceBound(n: nat, i: int): (k: nat)
    ensures k <= n
    ensures 0 <= i <= n ==> k == i
  {
    if i < 0 then (if i + n < 0 then 0 else i + n) else if i > n then n else i
  }

  /** Python's `s[lo:hi]`. */
  function PySlice<T>(s: seq<T>, lo: int, hi: int): (r: seq<T>)
    ensures 0 <= lo <= hi <= |s| ==> r == s[lo..hi]
  {
    var a, b := SliceBound(|s|, lo), SliceBound(|s|, hi);
    if a <= b then s[a..b] else []
  }

  /** `for x in xs: s.insert(at, x); at += 1`. */
  function InsertEach<T>(s: seq<T>, at: int, xs: seq<T>): (r: seq<T>)
    ensures |r| == |s| + |xs|
    decreases |xs|
  {
    if xs == [] then s else InsertEach(PyInsert(s, at, xs[0]), at + 1, xs[1..])
  }

  /** Inserting at successive positions inside the list places `xs` as one block at `at`. */
  lemma {:induction false} InsertEachIsBlock<T>(s: seq<T>, at: int, xs: seq<T>)
    requires 0 <= at <= |s|
    ensures InsertEach(s, at, xs) == s[..at] + xs + s[at..]
    decreases |xs|
  {
    if xs != [] {
      var s' := PyInsert(s, at, xs[0]);
      assert s' == s[..at] + [xs[0]] + s[at..];
      InsertEachIsBlock(s', at + 1, xs[1..]);
      assert s'[..at + 1] == s[..at] + [xs[0]];
      assert s'[at + 1..] == s[at..];
      assert [xs[0]] + xs[1..] == xs;
    }
  }
}
