/** The feed's incremental index over append-only score files. */
module VerdictIndex {

  newtype Byte = x: int | 0 <= x < 256

  type Bytes = seq<Byte>
  type Mint = nat
  type Verdict = nat
  type Day = nat

  const NL: Byte := 10
  const CR: Byte := 13

  datatype Option<T> = None | Some(value: T)

  /** What one line turns out to be. A line that is JSON but not an object makes the reader
      raise (`row.get`), after the lines before it were already applied. */
  datatype Line = Row(mint: Mint, verdict: Verdict) | Ignored | Raises

  type Parser = Bytes -> Line

  // ---------------------------------------------------------------- lines

  /** Index of the first line terminator, or the length. */
  function LineEnd(s: Bytes): (n: nat)
    ensures n <= |s| && (n < |s| ==> s[n] == NL || s[n] == CR) && forall i :: 0 <= i < n ==> s[i] != NL && s[i] != CR
  {
    if s == [] || s[0] == NL || s[0] == CR then 0 else 1 + LineEnd(s[1..])
  }

  /** Bytes up to and including the terminator; CR LF is one terminator. */
  function LineLength(s: Bytes): (n: nat)
    requires s != []
    ensures 0 < n <= |s|
  {
    var e := LineEnd(s);
    if e == |s| then e
    else if s[e] == CR && e + 1 < |s| && s[e + 1] == NL then e + 2 else e + 1
  }

  /** `bytes.splitlines()`. */
  function Lines(s: Bytes): seq<Bytes>
  {
    if s == [] then [] else [s[..LineEnd(s)]] + Lines(s[LineLength(s)..])
  }

  ghost predicate AtLineStart(s: Bytes)
  {
    s == [] || s[|s| - 1] == NL
  }

  ghost predicate NoBreak(x: Bytes)
  {
    forall i :: 0 <= i < |x| ==> x[i] != NL && x[i] != CR
  }

  lemma {:induction false} EndOfLine(x: Bytes, rest: Bytes)
    requires NoBreak(x) && (rest == [] || rest[0] == NL || rest[0] == CR)
    ensures LineEnd(x + rest) == |x|
  {
    var s, e := x + rest, LineEnd(x + rest);
    assert forall i :: 0 <= i < |x| ==> s[i] == x[i];
    assert rest != [] ==> s[|x|] == rest[0];
  }

  /** What a line is: a newline, a carriage return or the two together end one, and the bytes
      after the last terminator are a line of their own. These equations fix the splitting. */
  lemma {:induction false} LinesAre(x: Bytes, rest: Bytes)
    requires NoBreak(x)
    ensures Lines(x) == if x == [] then [] else [x]
    ensures Lines(x + [NL] + rest) == [x] + Lines(rest)
    ensures Lines(x + [CR, NL] + rest) == [x] + Lines(rest)
    ensures rest == [] || rest[0] != NL ==> Lines(x + [CR] + rest) == [x] + Lines(rest)
  {
    EndOfLine(x, []);
    assert x + [] == x && x[..|x|] == x;
    if x != [] {
      assert x[|x|..] == [] && Lines(x[|x|..]) == [];
    }
    Terminated(x, [NL], rest);
    Terminated(x, [CR, NL], rest);
    if rest == [] || rest[0] != NL {
      Terminated(x, [CR], rest);
    }
  }

  lemma {:induction false} Terminated(x: Bytes, end: Bytes, rest: Bytes)
    requires NoBreak(x) && end in {[NL], [CR], [CR, NL]} && (end == [CR] ==> rest == [] || rest[0] != NL)
    ensures Lines(x + end + rest) == [x] + Lines(rest)
  {
    var s := x + end + rest;
    assert s == x + (end + rest);
    EndOfLine(x, end + rest);
    assert s[|x|] == end[0] && s[..|x|] == x && s[|x| + |end|..] == rest;
    if |x| + 1 < |s| {
      assert s[|x| + 1] == (end + rest)[1];
    }
    Unfold(s, |x|, |x| + |end|);
  }

  /** Splitting is additive after a newline, so reading in pieces reads the same lines. */
  lemma {:induction false} LinesConcat(a: Bytes, b: Bytes)
    requires AtLineStart(a)
    ensures Lines(a + b) == Lines(a) + Lines(b)
    decreases |a|
  {
    if a == [] {
      assert a + b == b;
    } else {
      LineEndPrefix(a, b);
      var e, n := LineEnd(a), LineLength(a);
      TailAtLineStart(a, n);
      LinesConcat(a[n..], b);
      Unfold(a, e, n);
      Unfold(a + b, e, n);
      SlicesOfConcat(a, b, e, n);
      Associative(a[..e], Lines(a[n..]), Lines(b));
    }
  }

  lemma SlicesOfConcat(a: Bytes, b: Bytes, e: nat, n: nat)
    requires e <= |a| && n <= |a|
    ensures (a + b)[..e] == a[..e] && (a + b)[n..] == a[n..] + b
  {
  }

  lemma Associative(x: Bytes, p: seq<Bytes>, q: seq<Bytes>)
    ensures [x] + (p + q) == [x] + p + q
  {
  }

  lemma {:induction false} Unfold(s: Bytes, e: nat, n: nat)
    requires s != [] && e == LineEnd(s) && n == LineLength(s)
    ensures Lines(s) == [s[..e]] + Lines(s[n..])
  {
  }

  lemma TailAtLineStart(a: Bytes, n: nat)
    requires AtLineStart(a) && n <= |a|
    ensures AtLineStart(a[n..])
  {
  }

  lemma {:induction false} LineEndPrefix(a: Bytes, b: Bytes)
    requires a != [] && a[|a| - 1] == NL
    ensures LineEnd(a) < |a| && LineEnd(a + b) == LineEnd(a) && LineLength(a + b) == LineLength(a)
  {
    var e, f := LineEnd(a), LineEnd(a + b);
    assert (a + b)[e] == a[e];
  }

  /** Bytes up to and including the last newline. */
  function CompleteLength(s: Bytes): (n: nat)
    ensures n <= |s| && AtLineStart(s[..n]) && forall i :: n <= i < |s| ==> s[i] != NL
  {
    if s == [] then 0 else if s[|s| - 1] == NL then |s| else CompleteLength(s[..|s| - 1])
  }

  // ---------------------------------------------------------------- folding lines

  type Verdicts = map<Mint, Verdict>

  /** Apply lines in order until one raises; the flag says whether none did. */
  function Fold(parse: Parser, m: Verdicts, lines: seq<Bytes>): (Verdicts, bool)
    decreases |lines|
  {
    if lines == [] then (m, true)
    else match parse(lines[0])
      case Row(mint, verdict) => Fold(parse, m[mint := verdict], lines[1..])
      case Ignored => Fold(parse, m, lines[1..])
      case Raises => (m, false)
  }

  lemma {:induction false} FoldConcat(parse: Parser, m: Verdicts, a: seq<Bytes>, b: seq<Bytes>)
    ensures Fold(parse, m, a).1 ==> Fold(parse, m, a + b) == Fold(parse, Fold(parse, m, a).0, b)
    ensures !Fold(parse, m, a).1 ==> Fold(parse, m, a + b) == Fold(parse, m, a)
    decreases |a|
  {
    if a == [] {
      assert a + b == b;
    } else {
      assert (a + b)[0] == a[0] && (a + b)[1..] == a[1..] + b;
      match parse(a[0]) {
        case Row(mint, verdict) => FoldConcat(parse, m[mint := verdict], a[1..], b);
        case Ignored => FoldConcat(parse, m, a[1..], b);
        case Raises =>
      }
    }
  }

  /** The lines read: all of them, or those before the first that raises. */
  ghost predicate ReadUpTo(parse: Parser, lines: seq<Bytes>, n: nat)
  {
    && n <= |lines| && (forall k :: 0 <= k < n ==> !parse(lines[k]).Raises?)
    && (n < |lines| ==> parse(lines[n]).Raises?)
  }

  ghost predicate LastRow(parse: Parser, lines: seq<Bytes>, n: nat, mint: Mint, verdict: Verdict, k: nat)
  {
    && k < n <= |lines| && parse(lines[k]) == Row(mint, verdict)
    && forall j :: k < j < n && parse(lines[j]).Row? ==> parse(lines[j]).mint != mint
  }

  lemma LastRowGrows(parse: Parser, lines: seq<Bytes>, n: nat, mint: Mint, verdict: Verdict, k: nat)
    requires n < |lines| && !parse(lines[n]).Raises?
    ensures LastRow(parse, lines, n + 1, mint, verdict, k) <==>
      if parse(lines[n]).Row? && parse(lines[n]).mint == mint then k == n && parse(lines[n]).verdict == verdict
      else LastRow(parse, lines, n, mint, verdict, k)
  {
  }

  lemma LastRowOfPrefix(parse: Parser, lines: seq<Bytes>, p: nat, n: nat, mint: Mint, verdict: Verdict, k: nat)
    requires n <= p <= |lines|
    ensures LastRow(parse, lines[..p], n, mint, verdict, k) <==> LastRow(parse, lines, n, mint, verdict, k)
  {
    assert forall j :: 0 <= j < p ==> lines[..p][j] == lines[j];
  }

  ghost predicate LastScores(parse: Parser, lines: seq<Bytes>, n: nat, mint: Mint, verdict: Verdict)
  {
    exists k: nat :: LastRow(parse, lines, n, mint, verdict, k)
  }

  lemma LastScoresGrows(parse: Parser, lines: seq<Bytes>, n: nat, mint: Mint, verdict: Verdict)
    requires n < |lines| && !parse(lines[n]).Raises?
    ensures LastScores(parse, lines, n + 1, mint, verdict) <==>
      if parse(lines[n]).Row? && parse(lines[n]).mint == mint then parse(lines[n]).verdict == verdict
      else LastScores(parse, lines, n, mint, verdict)
  {
    if parse(lines[n]) == Row(mint, verdict) {
      assert LastRow(parse, lines, n + 1, mint, verdict, n);
    }
    if k: nat :| LastRow(parse, lines, n, mint, verdict, k) {
      LastRowGrows(parse, lines, n, mint, verdict, k);
    }
    var next := n + 1;
    if k: nat :| LastRow(parse, lines, next, mint, verdict, k) {
      LastRowGrows(parse, lines, n, mint, verdict, k);
    }
  }

  lemma LastScoresOfPrefix(parse: Parser, lines: seq<Bytes>, p: nat, n: nat, mint: Mint, verdict: Verdict)
    requires n <= p <= |lines|
    ensures LastScores(parse, lines[..p], n, mint, verdict) <==> LastScores(parse, lines, n, mint, verdict)
  {
    forall k: nat
      ensures LastRow(parse, lines[..p], n, mint, verdict, k) <==> LastRow(parse, lines, n, mint, verdict, k)
    {
      LastRowOfPrefix(parse, lines, p, n, mint, verdict, k);
    }
  }

  /** A fold holds, for each mint, the verdict of the last line read that scores it, and raises
      exactly when some line does. */
  lemma {:induction false} FoldTells(parse: Parser, lines: seq<Bytes>, mint: Mint, verdict: Verdict) returns (n: nat)
    ensures ReadUpTo(parse, lines, n) && (Fold(parse, map[], lines).1 <==> n == |lines|)
    ensures Lookup(Fold(parse, map[], lines).0, mint) == Some(verdict) <==> LastScores(parse, lines, n, mint, verdict)
    decreases |lines|
  {
    n := 0;
    if lines != [] {
      var m, less := |lines| - 1, lines[..|lines| - 1];
      n := FoldTells(parse, less, mint, verdict);
      assert lines == less + [lines[m]];
      FoldConcat(parse, map[], less, [lines[m]]);
      FoldOne(parse, Fold(parse, map[], less).0, lines[m]);
      LastScoresOfPrefix(parse, lines, m, n, mint, verdict);
      if n == m && !parse(lines[m]).Raises? {
        LastScoresGrows(parse, lines, m, mint, verdict);
        n := m + 1;
      }
    }
  }

  lemma FoldOne(parse: Parser, m: Verdicts, line: Bytes)
    ensures Fold(parse, m, [line]) == match parse(line)
      case Row(mint, verdict) => (m[mint := verdict], true)
      case Ignored => (m, true)
      case Raises => (m, false)
  {
    assert [line][1..] == [];
  }

  /** Whether some line raises does not depend on the map folded into. */
  lemma {:induction false} RaisesAnyway(parse: Parser, m: Verdicts, k: Verdicts, lines: seq<Bytes>)
    ensures Fold(parse, m, lines).1 == Fold(parse, k, lines).1
    decreases |lines|
  {
    if lines != [] {
      match parse(lines[0]) {
        case Row(mint, verdict) => RaisesAnyway(parse, m[mint := verdict], k[mint := verdict], lines[1..]);
        case Ignored => RaisesAnyway(parse, m, k, lines[1..]);
        case Raises =>
      }
    }
  }

  /** Folding into a map is writing the lines' own map over it. */
  lemma {:induction false} FoldOver(parse: Parser, m: Verdicts, lines: seq<Bytes>)
    ensures Fold(parse, m, lines).0 == m + Fold(parse, map[], lines).0
    ensures Fold(parse, m, lines).1 == Fold(parse, map[], lines).1
    decreases |lines|
  {
    if lines != [] {
      match parse(lines[0]) {
        case Row(mint, verdict) =>
          FoldOver(parse, m[mint := verdict], lines[1..]);
          FoldOver(parse, map[mint := verdict], lines[1..]);
          WriteFirst(m, mint, verdict, Fold(parse, map[], lines[1..]).0);
        case Ignored => FoldOver(parse, m, lines[1..]);
        case Raises =>
      }
    }
  }

  lemma WriteFirst(m: Verdicts, mint: Mint, verdict: Verdict, rest: Verdicts)
    ensures m[mint := verdict] + rest == m + (map[mint := verdict] + rest)
  {
  }

  function Lookup(m: Verdicts, mint: Mint): Option<Verdict>
  {
    if mint in m then Some(m[mint]) else None
  }

  /** The whole file up to its last newline, read afresh. */
  function ReadAll(parse: Parser, file: Bytes): (Verdicts, bool)
  {
    Fold(parse, map[], Lines(file[..CompleteLength(file)]))
  }

  // ---------------------------------------------------------------- the cursor

  datatype Cursor = Cursor(offset: nat, verdicts: Verdicts)

  const Fresh := Cursor(0, map[])

  function Pending(offset: nat, file: Bytes): Bytes
    requires offset <= |file|
  {
    var n := CompleteLength(file);
    if offset <= n then file[offset..n] else []
  }

  /** The cursor has read the file up to a line start; or it is stuck before a line that raises. */
  ghost predicate Follows(parse: Parser, c: Cursor, file: Bytes)
  {
    && c.offset <= |file| && AtLineStart(file[..c.offset])
    && Fold(parse, map[], Lines(file[..c.offset])).1
    && (|| c.verdicts == Fold(parse, map[], Lines(file[..c.offset])).0
        || !Fold(parse, c.verdicts, Lines(Pending(c.offset, file))).1)
  }

  /** The cursor is good for this file: it follows it, or the file has shrunk below it. */
  ghost predicate Usable(parse: Parser, c: Cursor, file: Bytes)
  {
    |file| < c.offset || Follows(parse, c, file)
  }

  /** `_refresh` on one cursor: rebuild if truncated, read what grew, never past a newline. */
  function Refreshed(parse: Parser, cursor: Cursor, file: Bytes): (Cursor, bool)
  {
    var c := if |file| < cursor.offset then Fresh else cursor;
    if |file| == c.offset then (c, true)
    else
      var chunk := file[c.offset..];
      var n := CompleteLength(chunk);
      if n == 0 then (c, true)
      else
        var (m, ok) := Fold(parse, c.verdicts, Lines(chunk[..n]));
        if ok then (Cursor(c.offset + n, m), true) else (Cursor(c.offset, m), false)
  }

  /** The complete length is the line start past which no newline stands. */
  lemma CompleteIs(s: Bytes, n: nat)
    requires n <= |s| && (n > 0 ==> s[n - 1] == NL) && forall i :: n <= i < |s| ==> s[i] != NL
    ensures CompleteLength(s) == n
  {
    CompleteEnds(s);
  }

  lemma CompleteEnds(s: Bytes)
    ensures CompleteLength(s) > 0 ==> s[CompleteLength(s) - 1] == NL
  {
    var n := CompleteLength(s);
    if n > 0 {
      assert s[..n][n - 1] == s[n - 1];
    }
  }

  lemma {:induction false} LineStartBelowComplete(file: Bytes, n: nat)
    requires n <= |file| && AtLineStart(file[..n])
    ensures n <= CompleteLength(file)
    ensures CompleteLength(file[n..]) == CompleteLength(file) - n
    ensures file[n..][..CompleteLength(file[n..])] == file[n..CompleteLength(file)]
  {
    var m := CompleteLength(file);
    CompleteEnds(file);
    LineStartEnds(file, n);
    LastNewlines(file, n, m);
    NewlinesFrom(file, n, m, file[n..]);
  }

  lemma LineStartEnds(file: Bytes, n: nat)
    requires n <= |file| && AtLineStart(file[..n])
    ensures n > 0 ==> file[n - 1] == NL
  {
    if n > 0 {
      assert file[..n][n - 1] == file[n - 1];
    }
  }

  lemma LastNewlines(file: Bytes, n: nat, m: nat)
    requires n <= |file| && (n > 0 ==> file[n - 1] == NL) && m <= |file|
    requires forall i :: m <= i < |file| ==> file[i] != NL
    ensures n <= m
  {
  }

  lemma NewlinesFrom(file: Bytes, n: nat, m: nat, rest: Bytes)
    requires n <= m <= |file| && rest == file[n..] && (m > 0 ==> file[m - 1] == NL)
    requires forall i :: m <= i < |file| ==> file[i] != NL
    ensures CompleteLength(rest) == m - n && rest[..m - n] == file[n..m]
  {
    assert forall i :: 0 <= i < |rest| ==> rest[i] == file[n + i];
    CompleteIs(rest, m - n);
  }

  /** After a refresh the cursor holds what a fresh read of the whole file gives, its offset
      right after the last newline; it raises exactly when a fresh read would. */
  lemma RefreshEqualsReread(parse: Parser, c: Cursor, file: Bytes)
    requires Usable(parse, c, file)
    ensures var (r, ok) := Refreshed(parse, c, file);
      && ok == ReadAll(parse, file).1
      && (ok ==> r == Cursor(CompleteLength(file), ReadAll(parse, file).0))
      && Follows(parse, r, file)
  {
    assert file[..0] == [];
    var s := if |file| < c.offset then Fresh else c;
    var n, m := s.offset, CompleteLength(file);
    LineStartBelowComplete(file, n);
    ReadAllSplits(parse, file, n, s.verdicts);
    if m == n {
      assert file[n..m] == [] && file[..m] == file[..n];
    } else if Refreshed(parse, c, file).1 {
      assert Refreshed(parse, c, file).0.offset == m;
    } else {
      RaisesAnyway(parse, s.verdicts, Refreshed(parse, c, file).0.verdicts, Lines(file[n..m]));
    }
  }

  /** A full re-read is the part before a line start and then the rest. */
  lemma ReadAllSplits(parse: Parser, file: Bytes, n: nat, m: Verdicts)
    requires n <= CompleteLength(file) && AtLineStart(file[..n]) && Fold(parse, map[], Lines(file[..n])).1
    ensures var tail := Lines(file[n..CompleteLength(file)]);
      && ReadAll(parse, file).1 == Fold(parse, m, tail).1
      && ReadAll(parse, file) == Fold(parse, Fold(parse, map[], Lines(file[..n])).0, tail)
  {
    var head, tail := file[..n], file[n..CompleteLength(file)];
    assert file[..CompleteLength(file)] == head + tail;
    LinesConcat(head, tail);
    FoldConcat(parse, map[], Lines(head), Lines(tail));
    RaisesAnyway(parse, m, Fold(parse, map[], Lines(head)).0, Lines(tail));
  }

  // ---------------------------------------------------------------- what may happen to the file

  /** Appending keeps a cursor usable, partial lines included. */
  lemma AppendKeepsUsable(parse: Parser, c: Cursor, file: Bytes, more: Bytes)
    requires Follows(parse, c, file)
    ensures Follows(parse, c, file + more)
  {
    var grown, n := file + more, c.offset;
    assert grown[..n] == file[..n];
    if c.verdicts != Fold(parse, map[], Lines(file[..n])).0 {
      PendingGrows(file, more, n);
      var tail := Pending(n, grown)[|Pending(n, file)|..];
      LinesConcat(Pending(n, file), tail);
      FoldConcat(parse, c.verdicts, Lines(Pending(n, file)), Lines(tail));
    }
  }

  lemma PendingGrows(file: Bytes, more: Bytes, n: nat)
    requires n <= |file| && AtLineStart(file[..n])
    ensures n <= |file + more| && |Pending(n, file)| <= |Pending(n, file + more)| && AtLineStart(Pending(n, file))
    ensures Pending(n, file + more) == Pending(n, file) + Pending(n, file + more)[|Pending(n, file)|..]
  {
    var grown := file + more;
    var k, m := CompleteLength(file), CompleteLength(grown);
    LineStartBelowComplete(file, n);
    assert grown[..k] == file[..k];
    LineStartBelowComplete(grown, k);
    CompleteEnds(file);
    SliceGrows(file, more, n, k, m);
  }

  lemma SliceGrows(file: Bytes, more: Bytes, n: nat, k: nat, m: nat)
    requires n <= k <= |file| && k <= m <= |file + more|
    ensures (file + more)[n..m] == file[n..k] + (file + more)[n..m][k - n..]
  {
    assert (file + more)[..k] == file[..k];
  }

  // ---------------------------------------------------------------- any cursor, any file

  /** The refresh answers what a full re-read would: it raises if and only if that would, and
      otherwise holds the same map. */
  ghost predicate Right(parse: Parser, c: Cursor, file: Bytes)
  {
    var (r, ok) := Refreshed(parse, c, file);
    ok == ReadAll(parse, file).1 && (ok ==> r.verdicts == ReadAll(parse, file).0)
  }

  /** The complete lines a refresh reads when the file has not shrunk below the offset. */
  function Unread(c: Cursor, file: Bytes): Bytes
    requires c.offset <= |file|
  {
    var rest := file[c.offset..];
    rest[..CompleteLength(rest)]
  }

  lemma RefreshedIs(parse: Parser, c: Cursor, file: Bytes)
    requires c.offset <= |file|
    ensures var (r, ok) := Refreshed(parse, c, file);
      && ok == Fold(parse, map[], Lines(Unread(c, file))).1
      && r.verdicts == c.verdicts + Fold(parse, map[], Lines(Unread(c, file))).0
  {
    FoldOver(parse, c.verdicts, Lines(Unread(c, file)));
    var rest := file[c.offset..];
    if CompleteLength(rest) == 0 {
      assert Unread(c, file) == [];
    }
  }

  /** The file's own head, up to the offset: what an appended-to file would have given the cursor. */
  function HeadMap(parse: Parser, c: Cursor, file: Bytes): (Verdicts, bool)
    requires c.offset <= |file|
  {
    Fold(parse, map[], Lines(file[..c.offset]))
  }

  /** The last line start at or before the offset. */
  function LineStart(c: Cursor, file: Bytes): (b: nat)
    requires c.offset <= |file|
    ensures b <= c.offset && AtLineStart(file[..b])
  {
    var b := CompleteLength(file[..c.offset]);
    assert file[..c.offset][..b] == file[..b];
    b
  }

  /** What must hold of a cursor and a file before a refresh, whatever happened to the file. A
      shorter file is always reread. Otherwise compare the cursor and the lines from the offset
      on with the lines before the line the offset stands in and the lines from that line on:
      one pair raises if and only if the other does, and, the later of a pair overriding the
      earlier, they give each mint the same verdict. */
  ghost predicate Agrees(parse: Parser, c: Cursor, file: Bytes)
  {
    |file| < c.offset ||
    var b := LineStart(c, file);
    var (tail, fine) := Fold(parse, map[], Lines(Unread(c, file)));
    var (head, headFine) := Fold(parse, map[], Lines(file[..b]));
    var (rest, restFine) := Fold(parse, map[], Lines(Unread(Cursor(b, map[]), file)));
    && fine == (headFine && restFine)
    && (fine ==> forall mint ::
        Lookup(if mint in tail then tail else c.verdicts, mint) == Lookup(if mint in rest then rest else head, mint))
  }

  /** At a line start this is: the head must not raise (unless the rest does), and the cursor must
      agree with the head on every mint the rest does not score again. */
  lemma AgreesAtLineStart(parse: Parser, c: Cursor, file: Bytes)
    requires c.offset <= |file| && AtLineStart(file[..c.offset])
    ensures var (head, headFine), (tail, fine) := HeadMap(parse, c, file), Fold(parse, map[], Lines(Unread(c, file)));
      Agrees(parse, c, file) <==>
        (fine ==> headFine && forall mint :: mint !in tail ==> Lookup(c.verdicts, mint) == Lookup(head, mint))
  {
    var head := file[..c.offset];
    LineStartEnds(file, c.offset);
    CompleteIs(head, c.offset);
    assert LineStart(c, file) == c.offset;
    assert Unread(Cursor(c.offset, map[]), file) == Unread(c, file);
  }

  lemma SameLookups(a: Verdicts, b: Verdicts)
    requires forall mint :: Lookup(a, mint) == Lookup(b, mint)
    ensures a == b
  {
    assert forall mint :: mint in a <==> mint in b by {
      forall mint ensures mint in a <==> mint in b {
        assert Lookup(a, mint) == Lookup(b, mint);
      }
    }
    forall mint | mint in a ensures a[mint] == b[mint] {
      assert Lookup(a, mint) == Lookup(b, mint);
    }
  }

  lemma OverIff(c: Verdicts, tail: Verdicts, head: Verdicts, rest: Verdicts)
    ensures c + tail == head + rest <==>
      forall mint :: Lookup(if mint in tail then tail else c, mint) == Lookup(if mint in rest then rest else head, mint)
  {
    forall mint
      ensures Lookup(c + tail, mint) == Lookup(if mint in tail then tail else c, mint)
      ensures Lookup(head + rest, mint) == Lookup(if mint in rest then rest else head, mint)
    {
    }
    if forall mint ::
      Lookup(if mint in tail then tail else c, mint) == Lookup(if mint in rest then rest else head, mint) {
      SameLookups(c + tail, head + rest);
    }
  }

  /** For every cursor and every file, the refresh answers what a full re-read would exactly when
      they agree. */
  lemma {:induction false} RefreshRightIff(parse: Parser, c: Cursor, file: Bytes)
    ensures Right(parse, c, file) <==> Agrees(parse, c, file)
  {
    if |file| < c.offset {
      RefreshEqualsReread(parse, c, file);
    } else {
      RefreshedIs(parse, c, file);
      var from := Cursor(LineStart(c, file), map[]);
      AlignedReadAll(parse, from, file);
      OverIff(c.verdicts, Fold(parse, map[], Lines(Unread(c, file))).0,
              HeadMap(parse, from, file).0, Fold(parse, map[], Lines(Unread(from, file))).0);
    }
  }

  /** Where the offset stands at a line start, the re-read is the head and then the unread lines. */
  lemma AlignedReadAll(parse: Parser, c: Cursor, file: Bytes)
    requires c.offset <= |file| && AtLineStart(file[..c.offset])
    ensures var head, tail := HeadMap(parse, c, file), Fold(parse, map[], Lines(Unread(c, file)));
      && ReadAll(parse, file).1 == (head.1 && tail.1)
      && (head.1 ==> ReadAll(parse, file).0 == head.0 + tail.0)
  {
    LineStartBelowComplete(file, c.offset);
    var head, tail := file[..c.offset], Unread(c, file);
    assert file[..CompleteLength(file)] == head + tail;
    LinesConcat(head, tail);
    FoldConcat(parse, map[], Lines(head), Lines(tail));
    FoldOver(parse, HeadMap(parse, c, file).0, Lines(tail));
  }

  /** Once a refresh has answered rightly from a line start, the cursor follows the file again. */
  lemma RightFollows(parse: Parser, c: Cursor, file: Bytes)
    requires |file| < c.offset || AtLineStart(file[..c.offset])
    requires Agrees(parse, c, file) && ReadAll(parse, file).1
    ensures Follows(parse, Refreshed(parse, c, file).0, file)
  {
    if |file| < c.offset {
      RefreshEqualsReread(parse, c, file);
    } else {
      RefreshRightIff(parse, c, file);
      RefreshedIs(parse, c, file);
      LineStartBelowComplete(file, c.offset);
      var r := Refreshed(parse, c, file).0;
      assert r.offset == CompleteLength(file);
    }
  }

  // ---------------------------------------------------------------- runs

  datatype Step = Append(more: Bytes) | Refresh | Replace(file: Bytes)

  /** A file and its cursor through any interleaving of appends, replacements (truncations among
      them) and refreshes. */
  function Run(parse: Parser, steps: seq<Step>): (Bytes, Cursor)
  {
    if steps == [] then ([], Fresh)
    else
      var (file, c) := Run(parse, steps[..|steps| - 1]);
      match steps[|steps| - 1]
      case Append(more) => (file + more, c)
      case Refresh => (file, Refreshed(parse, c, file).0)
      case Replace(other) => (other, c)
  }

  ghost predicate OnlyAppends(steps: seq<Step>)
  {
    forall i :: 0 <= i < |steps| ==> !steps[i].Replace?
  }

  /** As long as the file is only appended to, the offset sits at 0 or just after a newline, and
      the next refresh answers what a full re-read of the file would. */
  lemma {:induction false} EveryInterleavingFollows(parse: Parser, steps: seq<Step>)
    requires OnlyAppends(steps)
    ensures var (file, c) := Run(parse, steps);
      && Follows(parse, c, file)
      && Refreshed(parse, c, file).1 == ReadAll(parse, file).1
      && (ReadAll(parse, file).1 ==>
          Refreshed(parse, c, file).0 == Cursor(CompleteLength(file), ReadAll(parse, file).0))
  {
    assert Run(parse, []) == ([], Fresh);
    FreshFollows(parse);
    AppendsFollow(parse, [], steps);
    assert [] + steps == steps;
    var (file, c) := Run(parse, steps);
    RefreshEqualsReread(parse, c, file);
  }

  lemma FreshFollows(parse: Parser)
    ensures Follows(parse, Fresh, [])
  {
    var none: Bytes := [];
    assert none[..0] == [];
  }

  /** A cursor that follows its file goes on following it until the file is replaced. */
  lemma {:induction false} AppendsFollow(parse: Parser, before: seq<Step>, more: seq<Step>)
    requires OnlyAppends(more) && Follows(parse, Run(parse, before).1, Run(parse, before).0)
    ensures Follows(parse, Run(parse, before + more).1, Run(parse, before + more).0)
    decreases |more|
  {
    if more == [] {
      assert before + more == before;
    } else {
      var n := |more| - 1;
      AppendsFollow(parse, before, more[..n]);
      assert (before + more)[..|before + more| - 1] == before + more[..n];
      var (was, d) := Run(parse, before + more[..n]);
      match more[n] {
        case Append(bytes) => AppendKeepsUsable(parse, d, was, bytes);
        case Refresh => RefreshEqualsReread(parse, d, was);
      }
    }
  }

  /** Refresh `k` of a run answers what a full re-read would. */
  ghost predicate RightAt(parse: Parser, steps: seq<Step>, k: nat)
  {
    k < |steps| && (steps[k].Refresh? ==> Right(parse, Run(parse, steps[..k]).1, Run(parse, steps[..k]).0))
  }

  /** At refresh `k` the run's cursor agrees with the run's file. */
  ghost predicate AgreesAt(parse: Parser, steps: seq<Step>, k: nat)
  {
    k < |steps| && (steps[k].Refresh? ==> Agrees(parse, Run(parse, steps[..k]).1, Run(parse, steps[..k]).0))
  }

  /** No replacement stands between the right answer from a line start at `j` and step `k`. */
  ghost predicate Healed(parse: Parser, steps: seq<Step>, j: nat, k: nat)
  {
    && j < k <= |steps| && steps[j].Refresh? && OnlyAppends(steps[j + 1..k])
    && var (file, c) := Run(parse, steps[..j]);
       ReadAll(parse, file).1 && Agrees(parse, c, file) && (|file| < c.offset || AtLineStart(file[..c.offset]))
  }

  /** Which runs stay right, replacements included. Every refresh of a run is right exactly when
      each finds cursor and file in agreement; a refresh with no replacement since the start, or
      since a right answer from a line start, always does. */
  lemma RunRightIff(parse: Parser, steps: seq<Step>)
    ensures (forall k: nat :: k < |steps| ==> RightAt(parse, steps, k)) <==>
      (forall k: nat :: k < |steps| ==> AgreesAt(parse, steps, k))
    ensures forall k: nat :: k < |steps| && OnlyAppends(steps[..k]) ==> RightAt(parse, steps, k)
    ensures forall j: nat, k: nat :: k < |steps| && Healed(parse, steps, j, k) ==> RightAt(parse, steps, k)
  {
    forall k: nat | k < |steps|
      ensures RightAt(parse, steps, k) <==> AgreesAt(parse, steps, k)
    {
      RefreshRightIff(parse, Run(parse, steps[..k]).1, Run(parse, steps[..k]).0);
    }
    forall k: nat | k < |steps| && OnlyAppends(steps[..k])
      ensures RightAt(parse, steps, k)
    {
      EveryInterleavingFollows(parse, steps[..k]);
    }
    forall j: nat, k: nat | k < |steps| && Healed(parse, steps, j, k)
      ensures RightAt(parse, steps, k)
    {
      HealedIsRight(parse, steps, j, k);
    }
  }

  lemma HealedIsRight(parse: Parser, steps: seq<Step>, j: nat, k: nat)
    requires k < |steps| && Healed(parse, steps, j, k)
    ensures RightAt(parse, steps, k)
  {
    var (file, c) := Run(parse, steps[..j]);
    RightFollows(parse, c, file);
    assert steps[..j + 1][..j] == steps[..j];
    assert steps[..j + 1] + steps[j + 1..k] == steps[..k];
    AppendsFollow(parse, steps[..j + 1], steps[j + 1..k]);
    RefreshEqualsReread(parse, Run(parse, steps[..k]).1, Run(parse, steps[..k]).0);
  }

  /** A file truncated below the offset is rebuilt: the cursor comes out as that of a fresh index,
      which is the whole file reread. */
  lemma {:induction false} TruncationRebuilds(parse: Parser, c: Cursor, file: Bytes)
    requires |file| < c.offset
    ensures Right(parse, c, file) && Refreshed(parse, c, file) == Refreshed(parse, Fresh, file)
    ensures ReadAll(parse, file).1 ==>
      Refreshed(parse, c, file).0 == Cursor(CompleteLength(file), ReadAll(parse, file).0)
  {
    RefreshEqualsReread(parse, c, file);
  }

  /** Truncation is seen only by size: a run in which a file of the same length takes the place
      of one already read is not right, and its first lines are never read. */
  lemma ReplacedFileIsMisread() returns (parse: Parser, steps: seq<Step>, c: Cursor, old': Bytes, new': Bytes)
    ensures steps == [Append(old')] + [Refresh] + [Replace(new')] && Run(parse, steps) == (new', c)
    ensures Follows(parse, c, old') && |new'| >= c.offset && ReadAll(parse, new').1
    ensures !Agrees(parse, c, new') && !Right(parse, c, new')
  {
    parse := (line: Bytes) => if line == [] then Ignored else Row(line[0] as nat, 1);
    old', new' := [7, NL], [8, NL];
    c := ReadOneLine(parse, old', new');
    RefreshRightIff(parse, c, new');
    steps := [Append(old')] + [Refresh] + [Replace(new')];
    assert steps[..2] == [Append(old')] + [Refresh] && ([Append(old')] + [Refresh])[..1] == [Append(old')];
    assert Run(parse, []) == ([], Fresh) && [Append(old')][..0] == [] && [] + old' == old';
    assert Run(parse, [Append(old')]) == (old', Fresh);
    assert Run(parse, [Append(old')] + [Refresh]) == (old', c);
  }

  lemma ReadOneLine(parse: Parser, old': Bytes, new': Bytes) returns (c: Cursor)
    requires parse == ((line: Bytes) => if line == [] then Ignored else Row(line[0] as nat, 1))
    requires old' == [7, NL] && new' == [8, NL]
    ensures c == Refreshed(parse, Fresh, old').0 && Follows(parse, c, old') && c.offset == 2
    ensures ReadAll(parse, new').1 && !Right(parse, c, new')
  {
    RefreshEqualsReread(parse, Fresh, old');
    OneLine(7);
    OneLine(8);
    c := Refreshed(parse, Fresh, old').0;
    assert old'[..2] == old' && new'[..2] == new';
    assert Fold(parse, map[], [[7 as Byte]]) == (map[7 := 1], true) by { assert [[7 as Byte]][1..] == []; }
    assert Fold(parse, map[], [[8 as Byte]]) == (map[8 := 1], true) by { assert [[8 as Byte]][1..] == []; }
    assert c == Cursor(2, map[7 := 1]) && Refreshed(parse, c, new') == (c, true);
    assert 8 in ReadAll(parse, new').0 && 8 !in c.verdicts;
  }

  lemma OneLine(b: Byte)
    requires b != NL && b != CR
    ensures CompleteLength([b, NL]) == 2 && Lines([b, NL]) == [[b]]
  {
    var s: Bytes := [b, NL];
    assert s[1..][0] == NL;
    assert LineEnd(s[1..]) == 0;
    assert LineEnd(s) == 1 && LineLength(s) == 2;
    assert s[2..] == [] && s[..1] == [b];
  }

  // ---------------------------------------------------------------- the object

  datatype Result<T> = Ok(value: T) | Raised

  /** The body of `_refresh` on an existing file. */
  method ReadGrowth(parse: Parser, cursor: Cursor, file: Bytes) returns (c: Cursor, ok: bool)
    ensures (c, ok) == Refreshed(parse, cursor, file)
  {
    c := cursor;
    if |file| < c.offset {
      c := Fresh;
    }
    if |file| == c.offset {
      return c, true;
    }
    var chunk := file[c.offset..];
    var n := CompleteLength(chunk);
    if n == 0 {
      return c, true;
    }
    var m;
    m, ok := ApplyLines(parse, c.verdicts, Lines(chunk[..n]));
    c := if ok then Cursor(c.offset + n, m) else Cursor(c.offset, m);
  }

  /** The loop over complete lines, updating the map in place until one raises. */
  method ApplyLines(parse: Parser, start: Verdicts, lines: seq<Bytes>) returns (m: Verdicts, ok: bool)
    ensures (m, ok) == Fold(parse, start, lines)
  {
    m := start;
    for k := 0 to |lines|
      invariant Fold(parse, start, lines) == Fold(parse, m, lines[k..])
    {
      assert lines[k..][0] == lines[k] && lines[k..][1..] == lines[k + 1..];
      match parse(lines[k]) {
        case Row(mint, verdict) => m := m[mint := verdict];
        case Ignored =>
        case Raises => return m, false;
      }
    }
    ok := true;
  }

  class Index {
    const parse: Parser
    var cursors: map<Day, Cursor>

    constructor (parse: Parser)
      ensures this.parse == parse && cursors == map[]
    {
      this.parse := parse;
      cursors := map[];
    }

    /** Every cursor agrees with the file its day has now. */
    ghost predicate InAgreement(files: map<Day, Bytes>)
      reads this
    {
      AllAgree(parse, cursors, files)
    }

    function CursorOf(day: Day): Cursor
      reads this
    {
      CursorIn(cursors, day)
    }

    /** `_refresh(day)`: right exactly when the day's cursor agrees with its file. */
    method RefreshDay(day: Day, file: Option<Bytes>) returns (r: Result<Option<Cursor>>)
      modifies this`cursors
      ensures file.None? ==> r == Ok(None) && cursors == old(cursors) - {day}
      ensures file.Some? ==>
        day in cursors && cursors == old(cursors)[day := Refreshed(parse, old(CursorOf(day)), file.value).0]
      ensures file.Some? ==> (r.Raised? <==> !Refreshed(parse, old(CursorOf(day)), file.value).1)
      ensures file.Some? && r.Ok? ==> r.value == Some(cursors[day])
      ensures file.Some? && Usable(parse, old(CursorOf(day)), file.value) ==> Follows(parse, cursors[day], file.value)
      ensures file.Some? && Agrees(parse, old(CursorOf(day)), file.value) ==>
        && (r.Raised? <==> !ReadAll(parse, file.value).1)
        && (r.Ok? ==> (cursors[day].verdicts, true) == ReadAll(parse, file.value))
      ensures file.Some? && r.Ok? && (cursors[day].verdicts, true) == ReadAll(parse, file.value) ==>
        Agrees(parse, old(CursorOf(day)), file.value)
    {
      if file.None? {
        cursors := cursors - {day};
        return Ok(None);
      }
      var start := if day in cursors then cursors[day] else Fresh;
      var c, ok := ReadGrowth(parse, start, file.value);
      RefreshRightIff(parse, start, file.value);
      if Usable(parse, start, file.value) {
        RefreshEqualsReread(parse, start, file.value);
      }
      cursors := cursors[day := c];
      r := if ok then Ok(Some(c)) else Raised;
    }

    /** One day of the loop: refresh it and let its score, if any, replace the one found so far. */
    method Consult(mint: Mint, day: Day, files: map<Day, Bytes>, found: Option<Verdict>)
      returns (r: Result<Option<Verdict>>)
      modifies this`cursors
      ensures forall d :: d in cursors ==> d == day || (d in old(cursors) && cursors[d] == old(cursors)[d])
      ensures forall d :: d in old(cursors) && d != day ==> d in cursors
      ensures day in cursors ==> Tended(parse, old(CursorOf(day)), cursors[day], files, day)
      ensures AgreesOn(parse, old(CursorOf(day)), files, day) && r.Raised? ==>
        day in files && !ReadAll(parse, files[day]).1
      ensures AgreesOn(parse, old(CursorOf(day)), files, day) && r.Ok? ==>
        r.value == Override(parse, mint, files, day, found)
    {
      var file: Option<Bytes> := if day in files then Some(files[day]) else None;
      var c := RefreshDay(day, file);
      if c.Raised? {
        return Raised;
      }
      if c.value.Some? && mint in c.value.value.verdicts {
        return Ok(Some(c.value.value.verdicts[mint]));
      }
      r := Ok(found);
    }

    /** `verdict(mint)` over `days`, newest first: stale cursors go, and, where cursors and files
        agree, the newest day that scored the mint wins. */
    method Verdict(mint: Mint, days: seq<Day>, files: map<Day, Bytes>) returns (r: Result<Option<Verdict>>)
      requires forall i, j :: 0 <= i < j < |days| ==> days[i] != days[j]
      modifies this`cursors
      ensures forall day :: day in cursors ==> day in days
      ensures AllUsable(parse, old(cursors), files) ==> AllUsable(parse, cursors, files)
      ensures forall day :: day in cursors ==>
        cursors[day] == old(CursorOf(day)) || Tended(parse, old(CursorOf(day)), cursors[day], files, day)
      ensures old(InAgreement(files)) && r.Raised? ==>
        exists day :: day in days && day in files && !ReadAll(parse, files[day]).1
      ensures old(InAgreement(files)) && r.Ok? ==> r.value == Newest(parse, mint, days, files)
    {
      cursors := map day | day in cursors && day in days :: cursors[day];
      assert old(InAgreement(files)) ==> InAgreement(files);
      r := Scan(mint, days, files);
      KeepsUsable(parse, old(cursors), cursors, files);
    }

    /** The days oldest first, so that the newest score stands last. */
    method Scan(mint: Mint, days: seq<Day>, files: map<Day, Bytes>) returns (r: Result<Option<Verdict>>)
      requires forall i, j :: 0 <= i < j < |days| ==> days[i] != days[j]
      requires forall day :: day in cursors ==> day in days
      modifies this`cursors
      ensures forall day :: day in cursors ==> day in days
      ensures forall day :: day in cursors ==>
        cursors[day] == old(CursorOf(day)) || Tended(parse, old(CursorOf(day)), cursors[day], files, day)
      ensures old(InAgreement(files)) && r.Raised? ==>
        exists day :: day in days && day in files && !ReadAll(parse, files[day]).1
      ensures old(InAgreement(files)) && r.Ok? ==> r.value == Newest(parse, mint, days, files)
    {
      var found: Option<Verdict> := None;
      var n := |days|;
      while n > 0
        invariant 0 <= n <= |days|
        invariant forall day :: day in cursors ==> day in days
        invariant forall day :: day in cursors ==>
          cursors[day] == old(CursorOf(day)) || Tended(parse, old(CursorOf(day)), cursors[day], files, day)
        invariant forall i :: 0 <= i < n ==> CursorOf(days[i]) == old(CursorOf(days[i]))
        invariant old(InAgreement(files)) ==> found == Newest(parse, mint, days[n..], files)
      {
        n := n - 1;
        var day := days[n];
        assert days[n..][0] == day && days[n..][1..] == days[n + 1..];
        AgreementOn(parse, old(cursors), CursorOf(day), files, day);
        var c := Consult(mint, day, files, found);
        if c.Raised? {
          return Raised;
        }
        found := c.value;
      }
      assert days[0..] == days;
      r := Ok(found);
    }
  }

  /** The cursor came out of a refresh of the day's file. */
  ghost predicate Tended(parse: Parser, before: Cursor, after: Cursor, files: map<Day, Bytes>, day: Day)
  {
    day in files && after == Refreshed(parse, before, files[day]).0
  }

  /** A refresh keeps a cursor that is good for its file good for it. */
  lemma TendedIsUsable(parse: Parser, before: Cursor, after: Cursor, files: map<Day, Bytes>, day: Day)
    requires Tended(parse, before, after, files, day) && Usable(parse, before, files[day])
    ensures Usable(parse, after, files[day])
  {
    RefreshEqualsReread(parse, before, files[day]);
  }

  ghost predicate AllUsable(parse: Parser, cursors: map<Day, Cursor>, files: map<Day, Bytes>)
  {
    forall day :: day in cursors && day in files ==> Usable(parse, cursors[day], files[day])
  }

  lemma KeepsUsable(parse: Parser, before: map<Day, Cursor>, after: map<Day, Cursor>, files: map<Day, Bytes>)
    requires forall day :: day in after ==>
      after[day] == CursorIn(before, day) || Tended(parse, CursorIn(before, day), after[day], files, day)
    ensures AllUsable(parse, before, files) ==> AllUsable(parse, after, files)
  {
    if AllUsable(parse, before, files) {
      forall day | day in after && day in files
        ensures Usable(parse, after[day], files[day])
      {
        FreshAgrees(parse, files, day);
        if Tended(parse, CursorIn(before, day), after[day], files, day) {
          TendedIsUsable(parse, CursorIn(before, day), after[day], files, day);
        }
      }
    }
  }

  function CursorIn(cursors: map<Day, Cursor>, day: Day): Cursor
  {
    if day in cursors then cursors[day] else Fresh
  }

  ghost predicate AllAgree(parse: Parser, cursors: map<Day, Cursor>, files: map<Day, Bytes>)
  {
    forall day :: day in cursors ==> AgreesOn(parse, cursors[day], files, day)
  }

  lemma AgreementOn(parse: Parser, cursors: map<Day, Cursor>, c: Cursor, files: map<Day, Bytes>, day: Day)
    requires c == if day in cursors then cursors[day] else Fresh
    ensures AllAgree(parse, cursors, files) ==> AgreesOn(parse, c, files, day)
  {
    FreshAgrees(parse, files, day);
  }

  ghost predicate AgreesOn(parse: Parser, c: Cursor, files: map<Day, Bytes>, day: Day)
  {
    day in files ==> Agrees(parse, c, files[day])
  }

  /** The day's last score of the mint, or what an older day gave. */
  function Override(parse: Parser, mint: Mint, files: map<Day, Bytes>, day: Day,
                    older: Option<Verdict>): Option<Verdict>
  {
    if day in files && mint in ReadAll(parse, files[day]).0 then Some(ReadAll(parse, files[day]).0[mint]) else older
  }

  /** A fresh cursor is good for every file. */
  lemma FreshAgrees(parse: Parser, files: map<Day, Bytes>, day: Day)
    ensures day in files ==> Usable(parse, Fresh, files[day])
    ensures AgreesOn(parse, Fresh, files, day)
  {
    if day in files {
      assert files[day][..0] == [];
      RefreshEqualsReread(parse, Fresh, files[day]);
      RefreshRightIff(parse, Fresh, files[day]);
    }
  }

  /** The first of the days whose file scored the mint, and its last score there. */
  function Newest(parse: Parser, mint: Mint, days: seq<Day>, files: map<Day, Bytes>): Option<Verdict>
  {
    if days == [] then None else Override(parse, mint, files, days[0], Newest(parse, mint, days[1..], files))
  }

  predicate ScoredOn(parse: Parser, mint: Mint, files: map<Day, Bytes>, day: Day)
  {
    day in files && mint in ReadAll(parse, files[day]).0
  }

  predicate FirstScored(parse: Parser, mint: Mint, days: seq<Day>, files: map<Day, Bytes>, i: int)
  {
    && 0 <= i < |days| && ScoredOn(parse, mint, files, days[i])
    && forall j :: 0 <= j < i ==> !ScoredOn(parse, mint, files, days[j])
  }

  /** With the days newest first: the verdict of the newest day that scored the mint. */
  lemma {:induction false} NewestTells(parse: Parser, mint: Mint, days: seq<Day>, files: map<Day, Bytes>)
    ensures Newest(parse, mint, days, files).None? <==>
      forall i :: 0 <= i < |days| ==> !ScoredOn(parse, mint, files, days[i])
    ensures forall i :: FirstScored(parse, mint, days, files, i) ==>
      Newest(parse, mint, days, files) == Some(ReadAll(parse, files[days[i]]).0[mint])
    decreases |days|
  {
    if days != [] {
      NewestTells(parse, mint, days[1..], files);
      forall i | FirstScored(parse, mint, days, files, i)
        ensures Newest(parse, mint, days, files) == Some(ReadAll(parse, files[days[i]]).0[mint])
      {
        if i > 0 {
          assert !ScoredOn(parse, mint, files, days[0]);
          assert forall j :: 0 <= j < |days| - 1 ==> days[1..][j] == days[j + 1];
          assert FirstScored(parse, mint, days[1..], files, i - 1);
        }
      }
      if Newest(parse, mint, days, files).None? {
        forall i | 0 <= i < |days|
          ensures !ScoredOn(parse, mint, files, days[i])
        {
          assert i > 0 ==> days[1..][i - 1] == days[i];
        }
      }
    }
  }
}
