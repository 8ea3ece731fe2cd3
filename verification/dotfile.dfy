/**
 The reader of the `~/.pushover` credential file (main.go, `init`). The
 file is read with `ReadString('\n')` until that reports an error; each
 line it returns is split on `=`, and a line whose first piece is exactly
 `token` or `user` sets that key to the trimmed second piece.

 `Lines`, `ApplyLine` and `Parse` specify the reader; `ReadCredentials`
 is the loop itself, proved to compute `Parse`.
 */
module Dotfile {
  import opened Text

  /** The two keys the file provides; a key the file does not set stays empty. */
  datatype Credentials = Credentials(token: string, user: string)

  /** A line as `ReadString('\n')` returns it without error: it ends with the newline. */
  predicate Terminated(line: string)
  {
    |line| > 0 && line[|line| - 1] == '\n'
  }

  /** Every line of `lines` ends with a newline. */
  predicate AllTerminated(lines: seq<string>)
  {
    forall k :: 0 <= k < |lines| ==> Terminated(lines[k])
  }

  /**
   The lines the read loop sees, in order: every newline-terminated line,
   newline included. Text after the last newline is not among them.
   */
  function Lines(s: string): (ls: seq<string>)
    ensures AllTerminated(ls)
    decreases |s|
  {
    var i := Find(s, '\n');
    if i == |s| then [] else [s[..i + 1]] + Lines(s[i + 1..])
  }

  /** The concatenation of a sequence of lines. */
  function Flatten(lines: seq<string>): string
  {
    if |lines| == 0 then [] else lines[0] + Flatten(lines[1..])
  }

  /** The text before a line's first `=`: the key the line names. */
  function KeyOf(line: string): string
  {
    Split(line, '=')[0]
  }

  /**
   One iteration of the read loop: a line whose key is exactly `token` or
   `user` overwrites that key with its trimmed second `=`-separated piece;
   any other line changes nothing.
   */
  function ApplyLine(c: Credentials, line: string): Credentials
    requires Terminated(line)
  {
    var t := Split(line, '=');
    if KeyOf(line) == "token" then c.(token := TrimSpace(t[1]))
    else if KeyOf(line) == "user" then c.(user := TrimSpace(t[1]))
    else c
  }

  /** The read loop over a sequence of lines, first to last. */
  function ApplyLines(c: Credentials, lines: seq<string>): Credentials
    requires AllTerminated(lines)
    decreases |lines|
  {
    if |lines| == 0 then c else ApplyLines(ApplyLine(c, lines[0]), lines[1..])
  }

  /** The keys the reader leaves behind after reading `contents`, starting from two empty keys. */
  function Parse(contents: string): Credentials
  {
    ApplyLines(Credentials("", ""), Lines(contents))
  }

  /**
   Reference definition of a key's final value, scanning from the end:
   the trimmed value of the LAST line that names `key`, or `default` when
   no line names it.
   */
  function LastValue(lines: seq<string>, key: string, default: string): string
    requires AllTerminated(lines)
    requires key == "token" || key == "user"
    decreases |lines|
  {
    if |lines| == 0 then default
    else
      var t := Split(lines[|lines| - 1], '=');
      if KeyOf(lines[|lines| - 1]) == key then TrimSpace(t[1])
      else LastValue(lines[..|lines| - 1], key, default)
  }

  /**
   `bufio.Reader.ReadString('\n')` on the unread part `s[pos..]`: the text
   up to and including the next newline, and whether one was found.
   Without a newline it returns the rest together with an error, which
   ends the read loop.
   */
  method ReadString(s: string, pos: nat) returns (line: string, next: nat, found: bool)
    requires pos <= |s|
    ensures pos <= next <= |s| && line == s[pos..next]
    ensures found == ('\n' in s[pos..])
    ensures !found ==> next == |s| && Lines(s[pos..]) == []
    ensures found ==> pos < next && Terminated(line)
    ensures found ==> Lines(s[pos..]) == [line] + Lines(s[next..])
  {
    var i := pos;
    while i < |s| && s[i] != '\n'
      invariant pos <= i <= |s|
      invariant forall j :: pos <= j < i ==> s[j] != '\n'
    {
      i := i + 1;
    }
    found := i < |s|;
    next := if found then i + 1 else i;
    line := s[pos..next];
    FirstLine(s, pos, i);
  }

  /**
   The first line of `s[pos..]` given the position `i` of its first
   newline (or `|s|`): the line runs through that newline, and there is
   none when `i` is `|s|`.
   */
  lemma FirstLine(s: string, pos: nat, i: nat)
    requires pos <= i <= |s|
    requires forall j :: pos <= j < i ==> s[j] != '\n'
    requires i < |s| ==> s[i] == '\n'
    ensures (i < |s|) == ('\n' in s[pos..])
    ensures i == |s| ==> Lines(s[pos..]) == []
    ensures i < |s| ==> Lines(s[pos..]) == [s[pos..i + 1]] + Lines(s[i + 1..])
  {
    var rest := s[pos..];
    assert forall j :: 0 <= j < i - pos ==> rest[j] != '\n';
    FindUnique(rest, '\n', i - pos);
    FindAbsent(rest, '\n');
    if i < |s| {
      LinesUnfold(rest);
      assert rest[..i - pos + 1] == s[pos..i + 1];
      assert rest[i - pos + 1..] == s[i + 1..];
    }
  }

  /**
   The credential-file loop (main.go:100-108): read lines until
   `ReadString` fails, overwriting `token`/`user` as lines name them.
   */
  method ReadCredentials(contents: string) returns (token: string, user: string)
    ensures Credentials(token, user) == Parse(contents)
  {
    token, user := "", "";
    var pos := 0;
    var l, next, ok := ReadString(contents, pos);
    while ok
      invariant pos <= next <= |contents| && l == contents[pos..next]
      invariant ok ==> pos < next && Terminated(l)
      invariant ok ==> Lines(contents[pos..]) == [l] + Lines(contents[next..])
      invariant !ok ==> Lines(contents[pos..]) == []
      invariant ApplyLines(Credentials(token, user), Lines(contents[pos..])) == Parse(contents)
      decreases |contents| - pos
    {
      var t := Split(l, '=');
      if KeyOf(l) == "token" {
        token := TrimSpace(t[1]);
      } else if KeyOf(l) == "user" {
        user := TrimSpace(t[1]);
      }
      pos := next;
      l, next, ok := ReadString(contents, pos);
    }
  }

  // ---------------------------------------------------------------------
  // Properties of the lines the loop sees

  /** The lines are exactly a prefix of the file, and what follows them holds no newline. */
  lemma {:induction false} LinesCoverPrefix(s: string)
    ensures |Flatten(Lines(s))| <= |s|
    ensures s[..|Flatten(Lines(s))|] == Flatten(Lines(s))
    ensures forall j :: |Flatten(Lines(s))| <= j < |s| ==> s[j] != '\n'
    decreases |s|
  {
    var i := Find(s, '\n');
    if i < |s| {
      var rest := s[i + 1..];
      LinesCoverPrefix(rest);
      var n := |Flatten(Lines(rest))|;
      LinesUnfold(s);
      FlattenCons(s[..i + 1], Lines(rest));
      assert |Flatten(Lines(s))| == i + 1 + n;
      SliceAfter(s, i + 1, n);
    } else {
      FindIsFirst(s, '\n');
    }
  }

  /** Flattening a line followed by more lines. */
  lemma FlattenCons(line: string, lines: seq<string>)
    ensures Flatten([line] + lines) == line + Flatten(lines)
  {
    assert ([line] + lines)[1..] == lines;
  }

  /** Cutting `s` at `k + n` is cutting its part after `k` at `n`. */
  lemma SliceAfter(s: string, k: nat, n: nat)
    requires k + n <= |s|
    ensures s[..k + n] == s[..k] + s[k..][..n]
    ensures s[k + n..] == s[k..][n..]
  {
  }

  /** Appending text without a newline adds no line: an unterminated last line is never read. */
  lemma {:induction false} LinesIgnoreUnterminatedTail(s: string, tail: string)
    requires '\n' !in tail
    ensures Lines(s + tail) == Lines(s)
    decreases |s|
  {
    var i := Find(s, '\n');
    if i < |s| {
      LinesOfExtension(s, tail);
      LinesIgnoreUnterminatedTail(s[i + 1..], tail);
      LinesUnfold(s);
    } else {
      FindAbsent(s, '\n');
      assert '\n' !in s + tail;
      FindAbsent(s + tail, '\n');
    }
  }

  /** A file that ends with a newline contributes its lines ahead of whatever follows it. */
  lemma {:induction false} LinesConcat(s: string, t: string)
    requires s == [] || Terminated(s)
    ensures Lines(s + t) == Lines(s) + Lines(t)
    decreases |s|
  {
    if |s| == 0 {
      assert s + t == t;
    } else {
      var i := Find(s, '\n');
      assert s[|s| - 1] == '\n';
      FindAbsent(s, '\n');
      var rest := s[i + 1..];
      var first := [s[..i + 1]];
      LinesOfExtension(s, t);
      assert rest == [] || Terminated(rest) by {
        assert rest == [] || rest[|rest| - 1] == s[|s| - 1];
      }
      LinesConcat(rest, t);
      LinesUnfold(s);
      ConcatAssoc(first, Lines(rest), Lines(t));
    }
  }

  /** Text appended to a text that has a newline leaves its first line as it was. */
  lemma LinesOfExtension(s: string, t: string)
    requires Find(s, '\n') < |s|
    ensures Lines(s + t) == [s[..Find(s, '\n') + 1]] + Lines(s[Find(s, '\n') + 1..] + t)
  {
    var i := Find(s, '\n');
    FindInPrefix(s, t, '\n');
    SliceOfConcat(s, t, i + 1);
    LinesUnfold(s + t);
  }

  /** Cutting `s + t` inside `s`. */
  lemma SliceOfConcat(s: string, t: string, k: nat)
    requires k <= |s|
    ensures (s + t)[..k] == s[..k]
    ensures (s + t)[k..] == s[k..] + t
  {
  }

  /** Concatenation of sequences is associative. */
  lemma ConcatAssoc<T>(a: seq<T>, b: seq<T>, c: seq<T>)
    ensures a + (b + c) == (a + b) + c
  {
  }

  /** The first line of a text that has a newline is the text up to and including it. */
  lemma LinesUnfold(s: string)
    requires Find(s, '\n') < |s|
    ensures Lines(s) == [s[..Find(s, '\n') + 1]] + Lines(s[Find(s, '\n') + 1..])
  {
  }

  /** The first occurrence of a character in `s` is its first occurrence in any extension of `s`. */
  lemma FindInPrefix(s: string, t: string, c: char)
    requires Find(s, c) < |s|
    ensures Find(s + t, c) == Find(s, c)
  {
    var i := Find(s, c);
    FindIsFirst(s, c);
    assert forall j :: 0 <= j <= i ==> (s + t)[j] == s[j];
    FindUnique(s + t, c, i);
  }

  /** A single newline-terminated line is one line. */
  lemma SingleLine(line: string)
    requires Terminated(line) && '\n' !in line[..|line| - 1]
    ensures Lines(line) == [line]
  {
    var i := |line| - 1;
    assert forall j :: 0 <= j < i ==> line[j] == line[..i][j];
    FindUnique(line, '\n', i);
    LinesUnfold(line);
    assert line[..i + 1] == line;
    assert |line[i + 1..]| == 0;
    assert Lines([]) == [];
  }

  // ---------------------------------------------------------------------
  // Properties of the reader

  /** Reading two batches of lines is reading the first, then the second. */
  lemma {:induction false} ApplyLinesConcat(c: Credentials, a: seq<string>, b: seq<string>)
    requires AllTerminated(a) && AllTerminated(b)
    ensures AllTerminated(a + b)
    ensures ApplyLines(c, a + b) == ApplyLines(ApplyLines(c, a), b)
    decreases |a|
  {
    if |a| > 0 {
      assert (a + b)[1..] == a[1..] + b;
      ApplyLinesConcat(ApplyLine(c, a[0]), a[1..], b);
    } else {
      assert a + b == b;
    }
  }

  /**
   Each key ends up holding the value of the last line that names it, or
   what it held before when no line does: a later line overrides an
   earlier one.
   */
  lemma {:induction false} ApplyLinesIsLastValue(c: Credentials, lines: seq<string>)
    requires AllTerminated(lines)
    ensures ApplyLines(c, lines).token == LastValue(lines, "token", c.token)
    ensures ApplyLines(c, lines).user == LastValue(lines, "user", c.user)
    decreases |lines|
  {
    if |lines| > 0 {
      var init, last := lines[..|lines| - 1], lines[|lines| - 1];
      assert lines == init + [last];
      ApplyLinesConcat(c, init, [last]);
      ApplyLinesIsLastValue(c, init);
      assert ApplyLines(ApplyLines(c, init), [last]) == ApplyLine(ApplyLines(c, init), last);
    }
  }

  /** The parsed keys, by the reference definition: each is the value of the last line naming it. */
  lemma ParseIsLastValue(contents: string)
    ensures Parse(contents).token == LastValue(Lines(contents), "token", "")
    ensures Parse(contents).user == LastValue(Lines(contents), "user", "")
  {
    ApplyLinesIsLastValue(Credentials("", ""), Lines(contents));
  }

  /** A line can only name `token` or `user` if it has an `=`. */
  lemma KeyedLineHasValue(line: string)
    requires Terminated(line)
    requires KeyOf(line) == "token" || KeyOf(line) == "user"
    ensures '=' in line
  {
  }

  /**
   What a line names and stores: the text before its FIRST `=`, and the
   text between its first and second `=` (or the end of the line).
   */
  lemma ValueIsSecondSegment(line: string)
    requires '=' in line
    ensures var i := Find(line, '=');
            KeyOf(line) == line[..i] &&
            |Split(line, '=')| >= 2 &&
            Split(line, '=')[1] == line[i + 1..][..Find(line[i + 1..], '=')]
  {
    SplitSingle(line, '=');
  }

  /** Text after the last newline is never read, whatever it says. */
  lemma ParseIgnoresUnterminatedTail(s: string, tail: string)
    requires '\n' !in tail
    ensures Parse(s + tail) == Parse(s)
  {
    LinesIgnoreUnterminatedTail(s, tail);
  }

  /**
   Appending one newline-terminated line to a file that ends with a newline:
   a `token` line overwrites the token and keeps the user, a `user` line
   the converse, and any other line changes nothing.
   */
  lemma LaterLineOverrides(s: string, line: string)
    requires s == [] || Terminated(s)
    requires Terminated(line) && '\n' !in line[..|line| - 1]
    ensures KeyOf(line) == "token" ==>
              '=' in line && Parse(s + line) == Parse(s).(token := TrimSpace(Split(line, '=')[1]))
    ensures KeyOf(line) == "user" ==>
              '=' in line && Parse(s + line) == Parse(s).(user := TrimSpace(Split(line, '=')[1]))
    ensures KeyOf(line) != "token" && KeyOf(line) != "user" ==> Parse(s + line) == Parse(s)
  {
    LinesConcat(s, line);
    SingleLine(line);
    ApplyLinesConcat(Credentials("", ""), Lines(s), [line]);
    if KeyOf(line) == "token" || KeyOf(line) == "user" {
      KeyedLineHasValue(line);
    }
  }

  /** A file in which no line names `user` leaves the user key empty (likewise `token`). */
  lemma MissingKeyStaysEmpty(contents: string)
    ensures (forall k :: 0 <= k < |Lines(contents)| ==> KeyOf(Lines(contents)[k]) != "user") ==>
              Parse(contents).user == ""
    ensures (forall k :: 0 <= k < |Lines(contents)| ==> KeyOf(Lines(contents)[k]) != "token") ==>
              Parse(contents).token == ""
  {
    ParseIsLastValue(contents);
    LastValueAbsent(Lines(contents), "token");
    LastValueAbsent(Lines(contents), "user");
  }

  /** No line naming `key` means the key keeps its default. */
  lemma {:induction false} LastValueAbsent(lines: seq<string>, key: string)
    requires AllTerminated(lines)
    requires key == "token" || key == "user"
    ensures (forall k :: 0 <= k < |lines| ==> KeyOf(lines[k]) != key) ==> LastValue(lines, key, "") == ""
    decreases |lines|
  {
    if |lines| > 0 {
      LastValueAbsent(lines[..|lines| - 1], key);
    }
  }
}
