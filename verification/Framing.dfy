/**
 Cutting a reply out of the bytes a symbolizer writes, however the pipe splits them.
 llvm-symbolizer closes a reply with an empty line. addr2line has no end mark: it is asked
 for a dummy address after the real one, and its answer to that, TERMINATOR, ends the reply.
 */
module Framing {
  import opened Bytes

  datatype Kind = Llvm | Addr2Line

  const TERMINATOR: string := "??\n??:0\n"

  /** The end-of-output test of either subclass of SymbolizerProcess. */
  predicate ReachedEndOfOutput(kind: Kind, buffer: string) {
    match kind
    case Llvm => |buffer| >= 2 && buffer[|buffer| - 1] == '\n' && buffer[|buffer| - 2] == '\n'
    case Addr2Line => |buffer| > |TERMINATOR| && EndsWith(buffer, TERMINATOR)
  }

  /** The buffer the read loop ends with when successive reads return `chunks`. */
  function ReadLoop(kind: Kind, buffer: string, chunks: seq<string>): string
    decreases |chunks|
  {
    if chunks == [] then buffer
    else if ReachedEndOfOutput(kind, buffer + chunks[0]) then buffer + chunks[0]
    else ReadLoop(kind, buffer + chunks[0], chunks[1..])
  }

  /** The loop can stop at the end of s and nowhere before. */
  ghost predicate StopsOnlyAtEnd(kind: Kind, s: string) {
    s != [] && forall n :: 0 < n <= |s| ==> (ReachedEndOfOutput(kind, s[..n]) <==> n == |s|)
  }

  ghost predicate IsSplitOf(chunks: seq<string>, s: string) {
    Flatten(chunks) == s && forall i :: 0 <= i < |chunks| ==> chunks[i] != []
  }

  /** Where the reads cut the stream does not matter. */
  lemma {:induction false} ChunkingIrrelevant(kind: Kind, reply: string, chunks: seq<string>)
    requires StopsOnlyAtEnd(kind, reply) && IsSplitOf(chunks, reply)
    ensures ReadLoop(kind, [], chunks) == reply
  {
    ReadLoopFrom(kind, reply, [], chunks);
  }

  lemma {:induction false} ReadLoopFrom(kind: Kind, reply: string, buffer: string, chunks: seq<string>)
    requires StopsOnlyAtEnd(kind, reply)
    requires reply == buffer + Flatten(chunks) && forall i :: 0 <= i < |chunks| ==> chunks[i] != []
    ensures ReadLoop(kind, buffer, chunks) == reply
    decreases |chunks|
  {
    if chunks != [] {
      var next := buffer + chunks[0];
      assert next + Flatten(chunks[1..]) == reply;
      assert reply[..|next|] == next;
      if !ReachedEndOfOutput(kind, next) {
        ReadLoopFrom(kind, reply, next, chunks[1..]);
      }
    }
  }

  /** No read so far has completed the output. */
  ghost predicate Unfinished(kind: Kind, buffer: string, chunks: seq<string>)
    decreases |chunks|
  {
    chunks == [] || (!ReachedEndOfOutput(kind, buffer + chunks[0]) && Unfinished(kind, buffer + chunks[0], chunks[1..]))
  }

  lemma {:induction false} ReadLoopSnoc(kind: Kind, buffer: string, chunks: seq<string>, c: string)
    requires Unfinished(kind, buffer, chunks)
    ensures ReadLoop(kind, buffer, chunks) == buffer + Flatten(chunks)
    ensures ReadLoop(kind, buffer, chunks + [c]) == buffer + Flatten(chunks) + c
    ensures !ReachedEndOfOutput(kind, buffer + Flatten(chunks) + c) ==> Unfinished(kind, buffer, chunks + [c])
    ensures !ReachedEndOfOutput(kind, buffer) ==> !ReachedEndOfOutput(kind, buffer + Flatten(chunks))
    decreases |chunks|
  {
    if chunks == [] {
      assert chunks + [c] == [c] && [c][1..] == [] && buffer + Flatten(chunks) == buffer;
    } else {
      var next := buffer + chunks[0];
      assert (chunks + [c])[1..] == chunks[1..] + [c];
      ReadLoopSnoc(kind, next, chunks[1..], c);
      assert next + Flatten(chunks[1..]) == buffer + Flatten(chunks);
    }
  }

  lemma ReadMore(kind: Kind, chunks: seq<string>, c: string)
    requires Unfinished(kind, [], chunks)
    ensures ReadLoop(kind, [], chunks) == Flatten(chunks)
    ensures ReadLoop(kind, [], chunks + [c]) == Flatten(chunks + [c]) == Flatten(chunks) + c
    ensures !ReachedEndOfOutput(kind, Flatten(chunks) + c) ==> Unfinished(kind, [], chunks + [c])
    ensures !ReachedEndOfOutput(kind, Flatten(chunks))
  {
    ReadLoopSnoc(kind, [], chunks, c);
    FlattenAppend(chunks, c);
    assert [] + Flatten(chunks) == Flatten(chunks);
  }

  lemma NothingRead(kind: Kind)
    ensures Unfinished(kind, [], []) && Flatten([]) == []
  {
  }

  /** A reply that can be told to be complete only at its end is complete exactly when nothing is left of it. */
  lemma StopsExactly(kind: Kind, reply: string, got: string, left: string)
    requires StopsOnlyAtEnd(kind, reply) && reply == got + left
    ensures ReachedEndOfOutput(kind, got) <==> left == []
  {
    assert reply[..|got|] == got;
  }

  /* ---------- addr2line ---------- */

  ghost predicate OccursInside(a: string) {
    exists i :: 1 <= i && OccursAt(a, TERMINATOR, i)
  }

  /** TERMINATOR has no proper border: shifted by k it clashes with itself at `w`. */
  lemma Unbordered(k: nat) returns (w: nat)
    requires 1 <= k < |TERMINATOR|
    ensures k + w < |TERMINATOR| && TERMINATOR[k + w] != TERMINATOR[w]
  {
    w := if k == 1 || k == 4 then 1 else if k == 3 then 2 else 0;
  }

  /** Hence it never occurs across the boundary of an answer and the terminator after it. */
  lemma NoStraddle(a: string, i: nat)
    requires i < |a| < i + |TERMINATOR|
    ensures !OccursAt(a + TERMINATOR, TERMINATOR, i)
  {
    var k := |a| - i;
    var w := Unbordered(k);
    var s := a + TERMINATOR;
    assert s[i..i + |TERMINATOR|][k + w] == s[|a| + w] == TERMINATOR[w];
  }

  lemma OccursInsideOnly(a: string, i: nat)
    requires i < |a|
    ensures OccursAt(a + TERMINATOR, TERMINATOR, i) <==> OccursAt(a, TERMINATOR, i)
  {
    if i + |TERMINATOR| <= |a| {
      assert (a + TERMINATOR)[i..i + |TERMINATOR|] == a[i..i + |TERMINATOR|];
    } else {
      NoStraddle(a, i);
    }
  }

  /** Addr2LineProcess::ReadFromSymbolizer keeps what precedes the first terminator after index 0. */
  function Trim(buffer: string): string {
    var garbage := FindFrom(buffer, TERMINATOR, 1);
    if garbage <= |buffer| then buffer[..garbage] else buffer
  }

  lemma EndsAt(a: string)
    ensures OccursAt(a + TERMINATOR, TERMINATOR, |a|)
  {
  }

  lemma PrefixEnds(s: string, n: nat)
    requires |TERMINATOR| < n <= |s|
    ensures ReachedEndOfOutput(Addr2Line, s[..n]) <==> OccursAt(s, TERMINATOR, n - |TERMINATOR|)
  {
  }

  /**
   addr2line framing. The loop stops at the end of answer + terminator only, and the cut leaves
   the answer, exactly when the terminator does not occur in the answer after index 0.
   The answer may be the terminator itself, or begin with it.
   */
  lemma {:induction false} Addr2LineFraming(a: string)
    requires a != []
    ensures StopsOnlyAtEnd(Addr2Line, a + TERMINATOR) <==> !OccursInside(a)
    ensures Trim(a + TERMINATOR) == a <==> !OccursInside(a)
  {
    var s := a + TERMINATOR;
    EndsAt(a);
    PrefixEnds(s, |s|);
    assert s[..|s|] == s;
    if i: nat :| 1 <= i && OccursAt(a, TERMINATOR, i) {
      OccursInsideOnly(a, i);
      PrefixEnds(s, i + |TERMINATOR|);
      assert FindFrom(s, TERMINATOR, 1) <= i;
    } else {
      forall i: nat | 1 <= i < |a| ensures !OccursAt(s, TERMINATOR, i) {
        OccursInsideOnly(a, i);
      }
      forall n: nat | 0 < n < |s| ensures !ReachedEndOfOutput(Addr2Line, s[..n]) {
        if n > |TERMINATOR| { PrefixEnds(s, n); }
      }
      assert s[..|a|] == a;
    }
  }

  /* ---------- llvm-symbolizer ---------- */

  /** Lines, each with its newline. */
  function Join(lines: seq<string>): string {
    if lines == [] then [] else lines[0] + "\n" + Join(lines[1..])
  }

  ghost predicate DoubleNewline(s: string, p: nat) {
    p + 2 < |s| && s[p] == '\n' && s[p + 1] == '\n'
  }

  ghost predicate HasDoubleNewline(s: string) {
    exists p: nat :: DoubleNewline(s, p)
  }

  lemma DoubleNewlineAfterLine(first: string, t: string)
    requires Without(first, '\n') && t != []
    ensures HasDoubleNewline(first + "\n" + t) <==> HasDoubleNewline(t) || (|t| > 1 && t[0] == '\n')
  {
    var s := first + "\n" + t;
    assert forall q: nat :: DoubleNewline(t, q) ==> DoubleNewline(s, |first| + 1 + q);
    if |t| > 1 && t[0] == '\n' { assert DoubleNewline(s, |first|); }
    assert forall q :: 0 <= q < |first| ==> s[q] == first[q];
    if p: nat :| DoubleNewline(s, p) {
      if p > |first| { assert DoubleNewline(t, p - |first| - 1); }
    }
  }

  lemma {:induction false} JoinEnds(lines: seq<string>)
    requires lines != []
    ensures EndsWith(Join(lines) + "\n", "\n\n")
    ensures (Join(lines) + "\n")[0] == if lines[0] == [] then '\n' else lines[0][0]
  {
    var first, rest := lines[0], lines[1..];
    var s, t := Join(lines) + "\n", Join(rest) + "\n";
    assert s == first + "\n" + t;
    if rest == [] {
      assert s[|s| - 2..] == "\n\n";
    } else {
      JoinEnds(rest);
      assert s[|s| - 2..] == t[|t| - 2..];
    }
  }

  ghost predicate EmptyAfterFirst(lines: seq<string>) {
    exists i :: 1 <= i < |lines| && lines[i] == []
  }

  lemma EmptyAfterFirstStep(lines: seq<string>)
    requires lines != []
    ensures EmptyAfterFirst(lines) <==> EmptyAfterFirst(lines[1..]) || (|lines| > 1 && lines[1] == [])
  {
    var rest := lines[1..];
    if i :| 1 < i < |lines| && lines[i] == [] {
      assert rest[i - 1] == [];
    }
    if i :| 1 <= i < |rest| && rest[i] == [] {
      assert lines[i + 1] == [];
    }
  }

  lemma {:induction false} EmptyLineInside(lines: seq<string>)
    requires lines != [] && forall i :: 0 <= i < |lines| ==> Without(lines[i], '\n')
    ensures HasDoubleNewline(Join(lines) + "\n") <==> EmptyAfterFirst(lines)
  {
    var first, rest := lines[0], lines[1..];
    var t := Join(rest) + "\n";
    assert Join(lines) + "\n" == first + "\n" + t;
    DoubleNewlineAfterLine(first, t);
    EmptyAfterFirstStep(lines);
    if rest != [] {
      hide HasDoubleNewline, EmptyAfterFirst;
      EmptyLineInside(rest);
      JoinEnds(rest);
    }
  }

  /**
   llvm framing: the loop stops at the closing empty line only, exactly when no line but perhaps the first is
   empty.
   */
  lemma {:induction false} LlvmFraming(lines: seq<string>)
    requires lines != [] && forall i :: 0 <= i < |lines| ==> Without(lines[i], '\n')
    ensures StopsOnlyAtEnd(Llvm, Join(lines) + "\n") <==> (forall i :: 1 <= i < |lines| ==> lines[i] != [])
  {
    JoinEnds(lines);
    EmptyLineInside(lines);
    var s := Join(lines) + "\n";
    assert HasDoubleNewline(s) <==> exists p: nat :: DoubleNewline(s, p);
    assert s[..|s|] == s && s[|s| - 2..] == "\n\n";
    assert s[|s| - 2] == s[|s| - 2..][0] && s[|s| - 1] == s[|s| - 2..][1];
    if p: nat :| DoubleNewline(s, p) {
      assert ReachedEndOfOutput(Llvm, s[..p + 2]);
    } else {
      forall n | 0 < n < |s| ensures !ReachedEndOfOutput(Llvm, s[..n]) {
        if n >= 2 { assert !DoubleNewline(s, n - 2); }
      }
    }
  }

  /* ---------- well-formed replies ---------- */

  /** What one accepted command must bring back for the framing to work. */
  ghost predicate WellFormedReply(kind: Kind, reply: string) {
    && Without(reply, NUL)
    && match kind
       case Llvm => StopsOnlyAtEnd(Llvm, reply)
       case Addr2Line => exists a: string :: a != [] && !OccursInside(a) && reply == a + TERMINATOR
  }

  /** The meaningful part of a reply. */
  function Answer(kind: Kind, reply: string): string {
    match kind
    case Llvm => reply
    case Addr2Line => if EndsWith(reply, TERMINATOR) then reply[..|reply| - |TERMINATOR|] else reply
  }

  lemma {:induction false} WellFormedFraming(kind: Kind, reply: string)
    requires WellFormedReply(kind, reply)
    ensures StopsOnlyAtEnd(kind, reply)
    ensures kind == Addr2Line ==> Trim(reply) == Answer(kind, reply) && FindFrom(reply, TERMINATOR, 1) < |reply|
  {
    if kind == Addr2Line {
      var a :| a != [] && !OccursInside(a) && reply == a + TERMINATOR;
      Addr2LineFraming(a);
      EndsAt(a);
      assert reply[|a|..] == TERMINATOR && reply[..|a|] == a;
    }
  }

  /** The mark that closes a reply and is not part of the answer. */
  function Closing(kind: Kind): string {
    match kind
    case Llvm => ""
    case Addr2Line => TERMINATOR
  }

  lemma AnswerOf(kind: Kind, reply: string)
    requires WellFormedReply(kind, reply)
    ensures Answer(kind, reply) + Closing(kind) == reply
  {
    if kind == Addr2Line {
      var a :| a != [] && !OccursInside(a) && reply == a + TERMINATOR;
      assert reply[|a|..] == TERMINATOR && reply[..|a|] == a;
    }
  }

  lemma AnswerOfClosed(text: string)
    ensures Answer(Addr2Line, text + TERMINATOR) == text
  {
    assert (text + TERMINATOR)[|text|..] == TERMINATOR && (text + TERMINATOR)[..|text|] == text;
  }

  /** Before an addr2line reply is complete there is nothing to cut. */
  lemma {:induction false} NoCutYet(reply: string, got: string)
    requires WellFormedReply(Addr2Line, reply) && got <= reply && got != reply
    ensures FindFrom(got, TERMINATOR, 1) == |got| + 1
  {
    var a :| a != [] && !OccursInside(a) && reply == a + TERMINATOR;
    var i := FindFrom(got, TERMINATOR, 1);
    if i != |got| + 1 {
      assert got[i..i + |TERMINATOR|] == reply[i..i + |TERMINATOR|];
      OccursInsideOnly(a, i);
    }
  }

  /** The terminator is found exactly when the whole reply was read, and the cut leaves its answer. */
  lemma {:induction false} CutExactly(reply: string, got: string, left: string)
    requires reply == got + left && (reply == [] || WellFormedReply(Addr2Line, reply))
    ensures var garbage := FindFrom(got, TERMINATOR, 1);
            && (garbage <= |got| <==> ReachedEndOfOutput(Addr2Line, got))
            && (garbage <= |got| ==> left == [] && got[..garbage] + TERMINATOR == reply)
  {
    hide FindFrom;
    if reply == [] {
      assert got == [];
      NothingToFind();
    } else {
      WellFormedFraming(Addr2Line, reply);
      AnswerOf(Addr2Line, reply);
      StopsExactly(Addr2Line, reply, got, left);
      if left == [] {
        assert got == reply;
      } else {
        NoCutYet(reply, got);
      }
    }
  }

  lemma NothingToFind()
    ensures FindFrom([], TERMINATOR, 1) == 1
  {
  }
}
