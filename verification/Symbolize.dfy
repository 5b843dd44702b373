/**
 Addr2LinePool::SymbolizeAddr: from a request to the frames of its module's answer.
 */
module Symbolize {
  import opened Bytes
  import opened Framing
  import opened Grammar
  import opened Memory
  import opened Parser
  import opened Pool
  import opened PoolRuns
  import Commands
  import Replies

  /** What the process of a module answers to the request for an offset, after the commands in `history`. */
  function AnswerTo(replies: Children, history: seq<string>, name: string, offset: nat): string {
    Answer(Addr2Line, replies(name)(history, Commands.Addr2LineCommand(offset)))
  }

  lemma PoolIsRead(p: Addr2LinePool)
    requires p.Valid()
    ensures AllRead(p.state.members)
  {
    forall i | 0 <= i < |p.pool| ensures p.state.members[i].proc.unread == [] {
      assert p.Represents(i);
    }
  }

  /**
   Appends the frames of the answer to this very request, or reports failure and appends nothing. The
   program ends in a read that comes back empty (`exited`), or the parser leaves its input (`outcome`).
   */
  method SymbolizeAddr(p: Addr2LinePool, heap: Heap, info: AddrInfo, name: string, offset: nat)
    returns (ok: bool, exited: bool, outcome: ParseOutcome, ghost added: seq<FrameDat>, ghost owned: set<array<char>>)
    requires p.Valid() && p.ChildrenAnswer()
    modifies p, p.Objects(), heap, info`frames
    ensures exited <==> p.Starved(name)
    ensures !exited ==>
              var answer := AnswerTo(p.replies, History(old(p.state), name), name, offset);
              && PoolStep(p.replies, old(p.state), name, offset, if ok then Some(answer) else None, p.state)
              && outcome == (if ok then ReplyOutcome(answer) else Parsed)
              && (outcome == Parsed ==>
                    && info.frames == old(info.frames) + added && heap.live == old(heap.live) + owned
                    && fresh(owned) && owned !! old(heap.live)
                    && Owns(added, owned, if ok then ParseFrames(answer) else []))
  {
    hide PoolStep, AnswerTo, Owns, ReplyOutcome, ParseFrames, AllRead, History;
    OwnsNone();
    added, owned, ok, outcome := [], {}, false, Parsed;
    ghost var before := p.state;
    PoolIsRead(p);
    var buf;
    buf, exited := p.SendCommand(name, offset);
    if exited {
      return;
    }
    ok := buf.Some?;
    if ok {
      assert buf.value == AnswerTo(p.replies, History(before, name), name, offset) by {
        AnswerOfStep(p.replies, before, name, offset, buf.value, p.state);
      }
      outcome, added, owned := ParseSymbolizeAddrOutput(heap, buf.value, info);
    }
  }

  lemma AnswerOfStep(replies: Children, s: PoolState, name: string, offset: nat, text: string, t: PoolState)
    requires AllRead(s.members) && PoolStep(replies, s, name, offset, Some(text), t)
    ensures text == AnswerTo(replies, History(s, name), name, offset)
  {
    StepAnswers(replies, s, Request(name, offset), Some(text), t);
  }

  /**
   In any run, when the requested module's child printed entries that are recoverable and do not
   clash, a non-null result parses to exactly their frames.
   */
  lemma {:induction false} RunSymbolizes(replies: Children, run: PoolRun, k: nat, es: seq<Replies.Entry>)
    requires IsPoolRun(replies, run) && k < |run.requests| && run.results[k].Some?
    requires es != [] && Replies.AreEntries(es) && Replies.WellFormed(es) && !Replies.Clash(es)
    requires var r := run.requests[k];
             var reply := replies(r.name)(Asked(run, r.name, k), Commands.Addr2LineCommand(r.offset));
             reply == Replies.Print(es) + TERMINATOR
    ensures run.results[k].value == Replies.Print(es)
    ensures ReplyOutcome(run.results[k].value) == Parsed
    ensures ParseFrames(run.results[k].value) == Replies.Meanings(es)
  {
    hide IsPoolRun, Asked;
    var text := Replies.Print(es);
    AnswersAreOfTheModule(replies, run, k);
    AnswerOfClosed(text);
    assert Token("", "\n") == [] && text + "" == text;
    Replies.ParsePrinted(es, "");
    ReplyFaults(text);
  }
}
