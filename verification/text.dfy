/**
 The three pieces of Go's `strings`/`bufio` behaviour the credential reader
 relies on, on strings of characters: searching for a delimiter (as
 `bufio.Reader.ReadString` does), `strings.Split` with a one-character
 separator, and `strings.TrimSpace`.
 */
module Text {

  /** Index of the first occurrence of `c` in `s` at or after `k`, or `|s|` when there is none. */
  function FindFrom(s: string, c: char, k: nat): (i: nat)
    requires k <= |s|
    ensures k <= i <= |s|
    ensures i < |s| ==> s[i] == c
    decreases |s| - k
  {
    if k == |s| || s[k] == c then k else FindFrom(s, c, k + 1)
  }

  /** Index of the first occurrence of `c` in `s`, or `|s|` when there is none. */
  function Find(s: string, c: char): (i: nat)
    ensures i <= |s|
    ensures i < |s| ==> s[i] == c
  {
    FindFrom(s, c, 0)
  }

  /** No occurrence of `c` lies between `k` and the one FindFrom reports. */
  lemma {:induction false} FindFromIsFirst(s: string, c: char, k: nat)
    requires k <= |s|
    ensures forall j :: k <= j < FindFrom(s, c, k) ==> s[j] != c
    decreases |s| - k
  {
    if k < |s| && s[k] != c {
      FindFromIsFirst(s, c, k + 1);
    }
  }

  /** No occurrence of `c` comes before the one Find reports. */
  lemma FindIsFirst(s: string, c: char)
    ensures forall j :: 0 <= j < Find(s, c) ==> s[j] != c
  {
    FindFromIsFirst(s, c, 0);
  }

  /** Find reports `|s|` exactly when `c` does not occur in `s`. */
  lemma FindAbsent(s: string, c: char)
    ensures (Find(s, c) == |s|) == (c !in s)
  {
    FindIsFirst(s, c);
  }

  /** The first occurrence is unique: an index with `c` there and none before it is Find's answer. */
  lemma FindUnique(s: string, c: char, i: nat)
    requires i <= |s|
    requires i < |s| ==> s[i] == c
    requires forall j :: 0 <= j < i ==> s[j] != c
    ensures Find(s, c) == i
  {
    FindIsFirst(s, c);
  }

  /**
   `strings.Split(s, string(sep))`: the pieces of `s` between occurrences
   of `sep`, one more piece than there are separators.
   */
  function Split(s: string, sep: char): (t: seq<string>)
    ensures |t| >= 1
    ensures t[0] == s[..Find(s, sep)]
    ensures (|t| == 1) == (Find(s, sep) == |s|)
    decreases |s|
  {
    var i := Find(s, sep);
    if i == |s| then [s]
    else [s[..i]] + Split(s[i + 1..], sep)
  }

  /** Split gives a single piece exactly when the separator does not occur. */
  lemma SplitSingle(s: string, sep: char)
    ensures (|Split(s, sep)| == 1) == (sep !in s)
  {
    FindAbsent(s, sep);
  }

  /** No piece of a split contains the separator. */
  lemma {:induction false} SplitPiecesSeparatorFree(s: string, sep: char)
    ensures forall k :: 0 <= k < |Split(s, sep)| ==> sep !in Split(s, sep)[k]
    decreases |s|
  {
    var i := Find(s, sep);
    FindIsFirst(s, sep);
    if i < |s| {
      SplitPiecesSeparatorFree(s[i + 1..], sep);
      assert Split(s, sep) == [s[..i]] + Split(s[i + 1..], sep);
    }
  }

  /** `strings.Join(t, string(sep))`, the inverse of Split. */
  function Join(t: seq<string>, sep: char): string
    requires |t| >= 1
  {
    if |t| == 1 then t[0] else t[0] + [sep] + Join(t[1..], sep)
  }

  /** Joining the pieces of a split gives back the original string. */
  lemma {:induction false} JoinSplit(s: string, sep: char)
    ensures Join(Split(s, sep), sep) == s
    decreases |s|
  {
    var i := Find(s, sep);
    if i < |s| {
      var t := Split(s, sep);
      assert t == [s[..i]] + Split(s[i + 1..], sep);
      assert t[1..] == Split(s[i + 1..], sep);
      calc {
        Join(t, sep);
        t[0] + [sep] + Join(t[1..], sep);
        { JoinSplit(s[i + 1..], sep); }
        s[..i] + [sep] + s[i + 1..];
        { Reassemble(s, i); }
        s;
      }
    }
  }

  /** A string is the part before position `i`, the character at `i`, and the part after. */
  lemma Reassemble(s: string, i: nat)
    requires i < |s|
    ensures s[..i] + [s[i]] + s[i + 1..] == s
  {
  }

  /** Splitting a join of separator-free pieces gives back the pieces. */
  lemma {:induction false} SplitJoin(t: seq<string>, sep: char)
    requires |t| >= 1
    requires forall k :: 0 <= k < |t| ==> sep !in t[k]
    ensures Split(Join(t, sep), sep) == t
  {
    if |t| > 1 {
      var s := Join(t, sep);
      assert s == t[0] + ([sep] + Join(t[1..], sep));
      FindAfterPrefix(t[0], Join(t[1..], sep), sep);
      assert s[..|t[0]|] == t[0];
      assert s[|t[0]| + 1..] == Join(t[1..], sep);
      SplitJoin(t[1..], sep);
    }
  }

  /** A separator right after a separator-free prefix is the first one. */
  lemma FindAfterPrefix(p: string, rest: string, sep: char)
    requires sep !in p
    ensures Find(p + [sep] + rest, sep) == |p|
  {
    var s := p + [sep] + rest;
    assert s[|p|] == sep;
    assert forall j :: 0 <= j < |p| ==> s[j] == p[j];
    FindUnique(s, sep, |p|);
  }

  /**
   Go's `unicode.IsSpace`, which `strings.TrimSpace` uses: the ASCII
   white space characters, NEL, NBSP, and the Unicode `White_Space`
   characters above U+00FF.
   */
  predicate IsSpace(c: char)
  {
    || c == '\t' || c == '\n' || c == '\U{B}' || c == '\U{C}' || c == '\r' || c == ' '
    || c == '\U{85}' || c == '\U{A0}' || c == '\U{1680}'
    || ('\U{2000}' <= c <= '\U{200A}')
    || c == '\U{2028}' || c == '\U{2029}' || c == '\U{202F}' || c == '\U{205F}' || c == '\U{3000}'
  }

  /** Number of white space characters `s` starts with. */
  function LeadingSpaces(s: string): (n: nat)
    ensures n <= |s|
    ensures forall j :: 0 <= j < n ==> IsSpace(s[j])
    ensures n < |s| ==> !IsSpace(s[n])
  {
    if |s| > 0 && IsSpace(s[0]) then 1 + LeadingSpaces(s[1..]) else 0
  }

  /** Number of white space characters `s` ends with. */
  function TrailingSpaces(s: string): (n: nat)
    ensures n <= |s|
    ensures forall j :: |s| - n <= j < |s| ==> IsSpace(s[j])
    ensures n < |s| ==> !IsSpace(s[|s| - n - 1])
  {
    if |s| > 0 && IsSpace(s[|s| - 1]) then 1 + TrailingSpaces(s[..|s| - 1]) else 0
  }

  /**
   `strings.TrimSpace(s)`: `s` without its leading and trailing white
   space; what is removed is white space and nothing else.
   */
  function TrimSpace(s: string): (r: string)
    ensures LeadingSpaces(s) + |r| <= |s|
    ensures r == s[LeadingSpaces(s)..LeadingSpaces(s) + |r|]
    ensures forall j :: 0 <= j < LeadingSpaces(s) ==> IsSpace(s[j])
    ensures forall j :: LeadingSpaces(s) + |r| <= j < |s| ==> IsSpace(s[j])
    ensures r != [] ==> !IsSpace(r[0]) && !IsSpace(r[|r| - 1])
  {
    var rest := s[LeadingSpaces(s)..];
    rest[..|rest| - TrailingSpaces(rest)]
  }

  /** Trimming twice is trimming once. */
  lemma TrimSpaceIdempotent(s: string)
    ensures TrimSpace(TrimSpace(s)) == TrimSpace(s)
  {
    var r := TrimSpace(s);
    if |r| > 0 {
      assert LeadingSpaces(r) == 0;
      assert TrailingSpaces(r) == 0;
    }
  }

  /** A string with white space only trims to the empty string, and only such a string does. */
  lemma TrimSpaceEmpty(s: string)
    ensures (TrimSpace(s) == []) == (forall j :: 0 <= j < |s| ==> IsSpace(s[j]))
  {
    if |TrimSpace(s)| > 0 {
      assert !IsSpace(s[LeadingSpaces(s)]);
    }
  }
}
