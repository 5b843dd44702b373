/**
 The public interface over its global pointers. Each function does on the heap what the abstract
 session says; every string is owned by one field of one record until it is freed.
 */
module Interface {
  import opened Bytes
  import opened Grammar
  import opened Memory
  import opened Parser
  import opened Session

  ghost function DataView(info: DataInfo): Data
    reads info`name, info`file, info`start, info`size, info`line, DataBlocks(info)
  {
    Data(TextOf(info.name), TextOf(info.file), info.start, info.size, info.line)
  }

  /** A reply the tool hands to a parser. */
  predicate GoodReply(reply: Option<string>) {
    reply.Some? ==> Without(reply.value, NUL)
  }

  predicate GoodCall(c: Call) {
    match c
    case AddrSend(reply) => GoodReply(reply)
    case DataSend(reply) => GoodReply(reply)
    case _ => true
  }

  lemma {:induction false} BlocksCount(fs: seq<FrameDat>)
    requires Distinct(fs)
    ensures |Blocks(fs)| == StringCount(Views(fs))
  {
    if fs != [] {
      BlocksCount(fs[..|fs| - 1]);
      var f := fs[|fs| - 1];
      assert |BlocksOf(f)| == Present(View(f).func) + Present(View(f).file);
    }
  }

  /** Frees the strings of a data record and nulls their pointers. */
  method FreeDataStrings(heap: Heap, info: DataInfo)
    requires DataBlocks(info) <= heap.live && (info.name != null ==> info.name != info.file)
    modifies heap, info`file, info`name
    ensures info.file == null && info.name == null
    ensures heap.live == old(heap.live) - old(DataBlocks(info))
  {
    if info.file != null {
      heap.Free(info.file);
      info.file := null;
    }
    if info.name != null {
      heap.Free(info.name);
      info.name := null;
    }
  }

  /** Frees each string of the frames once. */
  method FreeStrings(heap: Heap, fs: seq<FrameDat>)
    requires Distinct(fs) && Blocks(fs) <= heap.live
    modifies heap
    ensures heap.live == old(heap.live) - Blocks(fs)
  {
    for i := 0 to |fs|
      invariant heap.live == old(heap.live) - Blocks(fs[..i])
    {
      assert fs == fs[..i] + [fs[i]] + fs[i + 1..];
      BlocksAppend(fs[..i] + [fs[i]], fs[i + 1..]);
      BlocksSnoc(fs[..i], fs[i]);
      assert fs[..i + 1] == fs[..i] + [fs[i]];
      if fs[i].func != null {
        heap.Free(fs[i].func);
      }
      if fs[i].file != null {
        heap.Free(fs[i].file);
      }
    }
    assert fs[..|fs|] == fs;
  }

  lemma FramesAppend(fs: seq<FrameDat>, added: seq<FrameDat>, owned: set<array<char>>, seen: seq<Frame>,
      parsed: seq<Frame>)
    requires Distinct(fs) && Views(fs) == seen && Owns(added, owned, parsed) && Blocks(fs) !! owned
    ensures Distinct(fs + added) && Views(fs + added) == seen + parsed && Blocks(fs + added) == Blocks(fs) + owned
  {
    ViewsAppend(fs, added);
    BlocksAppend(fs, added);
  }

  lemma DataCount(info: DataInfo)
    requires info.name != null ==> info.name != info.file
    ensures |DataBlocks(info)| == Present(DataView(info).name) + Present(DataView(info).file)
  {
  }

  lemma RecordRead(info: DataInfo, text: string)
    requires var d := ParseData(text);
             && info.name != null && Holds(info.name, d.name) && info.file != null && Holds(info.file, d.file)
             && info.start == d.start && info.size == d.size && info.line == d.line
    ensures DataView(info) == RecordOf(text)
  {
    HoldsText(info.name, ParseData(text).name);
    HoldsText(info.file, ParseData(text).file);
  }

  /** The live blocks are those of the frames, those of the data record and the leaked ones, disjoint. */
  ghost predicate Partition<T>(live: set<T>, frames: set<T>, data: set<T>, leaked: set<T>) {
    live == frames + data + leaked && frames !! data && frames + data !! leaked
  }

  lemma FramesLive<T>(live: set<T>, frames: set<T>, data: set<T>, leaked: set<T>)
    requires Partition(live, frames, data, leaked)
    ensures frames <= live
  {
  }

  lemma LeakData<T>(live: set<T>, frames: set<T>, data: set<T>, leaked: set<T>, made: set<T>, live': set<T>,
      leaked': set<T>)
    requires Partition(live, frames, data, leaked) && made !! live
    requires live' == live + made && leaked' == leaked + data
    ensures Partition(live', frames, made, leaked')
  {
  }

  lemma DropData<T>(live: set<T>, frames: set<T>, data: set<T>, leaked: set<T>, live': set<T>)
    requires Partition(live, frames, data, leaked) && live' == live - data
    ensures Partition(live', frames, {}, leaked)
  {
  }

  lemma DropFrames<T>(live: set<T>, frames: set<T>, data: set<T>, leaked: set<T>, live': set<T>)
    requires Partition(live, frames, data, leaked) && live' == live - frames
    ensures Partition(live', {}, data, leaked)
  {
  }

  lemma DataLive<T>(live: set<T>, frames: set<T>, data: set<T>, leaked: set<T>)
    requires Partition(live, frames, data, leaked)
    ensures data <= live
  {
  }

  lemma LeakCount<T>(live: set<T>, frames: set<T>, data: set<T>, leaked: set<T>)
    requires Partition(live, frames, data, leaked)
    ensures |leaked + data| == |leaked| + |data|
  {
  }

  lemma AddFrames<T>(live: set<T>, frames: set<T>, data: set<T>, leaked: set<T>, made: set<T>)
    requires Partition(live, frames, data, leaked) && made !! live
    ensures Partition(live + made, frames + made, data, leaked) && frames !! made
  {
  }

  class SanSymTool {
    var pDataInfoBuf: DataInfo?
    var pAddrInfoBuf: AddrInfo?
    var pSanSymTool: Option<ToolCode>
    const heap: Heap
    // The blocks from parsing that no global record owns any more.
    ghost var leaked: set<array<char>>
    // The values of the two records.
    ghost var frames: seq<Frame>
    ghost var data: Data

    ghost predicate AllOrNone()
      reads this
    {
      (pDataInfoBuf == null <==> pAddrInfoBuf == null) && (pAddrInfoBuf == null <==> pSanSymTool == None)
    }

    ghost function Owned(): set<array<char>>
      reads this, pDataInfoBuf, pAddrInfoBuf
    {
      (if pAddrInfoBuf == null then {} else Blocks(pAddrInfoBuf.frames))
      + (if pDataInfoBuf == null then {} else DataBlocks(pDataInfoBuf))
    }

    ghost predicate OwnsOnce()
      reads this, pDataInfoBuf, pAddrInfoBuf
    {
      && (pAddrInfoBuf != null ==> Distinct(pAddrInfoBuf.frames))
      && (pDataInfoBuf != null ==> (pDataInfoBuf.name != null ==> pDataInfoBuf.name != pDataInfoBuf.file))
      && (pAddrInfoBuf != null && pDataInfoBuf != null ==> Blocks(pAddrInfoBuf.frames) !! DataBlocks(pDataInfoBuf))
    }

    ghost predicate Shows()
      reads this, pDataInfoBuf, pAddrInfoBuf, Owned()
    {
      && (pAddrInfoBuf != null ==> Views(pAddrInfoBuf.frames) == frames)
      && (pDataInfoBuf != null ==> DataView(pDataInfoBuf) == data)
    }

    /** The live blocks are the owned ones, each owned once, and the leaked ones. */
    ghost predicate Valid()
      reads this, heap, pDataInfoBuf, pAddrInfoBuf, Owned()
    {
      AllOrNone() && OwnsOnce() && Owned() !! leaked && heap.live == Owned() + leaked && Shows()
    }

    ghost function Abs(): World
      reads this
    {
      World(if pSanSymTool == None then Down else Up(pSanSymTool.value, frames, data), |leaked|)
    }

    constructor ()
      ensures Valid() && Abs() == START && fresh(heap) && heap.live == {}
    {
      heap := new Heap();
      pDataInfoBuf, pAddrInfoBuf, pSanSymTool, leaked := null, null, None, {};
      frames, data := [], NO_DATA;
    }

    lemma OwnedCount()
      requires Valid()
      ensures heap.live == leaked + Owned()
      ensures |leaked + Owned()| == |leaked| + HeldStrings(Abs().globals)
    {
      if pAddrInfoBuf != null {
        BlocksCount(pAddrInfoBuf.frames);
        assert Views(pAddrInfoBuf.frames) == frames;
        var d := pDataInfoBuf;
        assert |DataBlocks(d)| == Present(DataView(d).name) + Present(DataView(d).file);
        assert |Owned()| == |Blocks(pAddrInfoBuf.frames)| + |DataBlocks(d)|;
      }
    }

    method Init(path: string, executable: bool) returns (code: RetCode)
      requires Valid()
      modifies this
      ensures Valid() && code == SelectTool(path, executable).0
      ensures Abs() == if code == YesInitDone then Fresh(old(Abs()), SelectTool(path, executable).1.value)
                       else old(Abs())
      ensures pDataInfoBuf == old(pDataInfoBuf) || fresh(pDataInfoBuf)
      ensures pAddrInfoBuf == old(pAddrInfoBuf) || fresh(pAddrInfoBuf)
    {
      hide Valid, Owned, HeldStrings, SelectTool;
      var (selected, tool) := SelectTool(path, executable);
      if tool == None {
        return selected;
      }
      OwnedCount();
      ghost var lost := Owned();
      pSanSymTool := tool;
      pDataInfoBuf := new DataInfo();
      pAddrInfoBuf := new AddrInfo();
      leaked := leaked + lost;
      frames, data := [], NO_DATA;
      NewSession();
      code := YesInitDone;
    }

    lemma NewSession()
      requires pSanSymTool.Some? && pDataInfoBuf != null && pAddrInfoBuf != null
      requires pAddrInfoBuf.frames == [] && frames == [] && heap.live == leaked
      requires pDataInfoBuf.name == null && pDataInfoBuf.file == null
      requires data == Data(None, None, pDataInfoBuf.start, pDataInfoBuf.size, pDataInfoBuf.line)
      ensures Valid()
    {
    }

    /** With everything freed only leaked blocks are live. */
    lemma NothingOwned()
      requires Valid()
      requires pAddrInfoBuf != null ==> pAddrInfoBuf.frames == []
      requires pDataInfoBuf != null ==> pDataInfoBuf.name == null && pDataInfoBuf.file == null
      ensures heap.live == leaked
    {
    }

    lemma NoSession()
      requires pSanSymTool == None && pDataInfoBuf == null && pAddrInfoBuf == null && heap.live == leaked
      ensures Valid()
    {
    }

    /** What Valid says of a session that is up. */
    ghost predicate UpFacts(a: AddrInfo, d: DataInfo)
      reads this, heap, a, d, Blocks(a.frames), DataBlocks(d)
    {
      && Distinct(a.frames) && Views(a.frames) == frames
      && DataView(d) == data && (d.name != null ==> d.name != d.file)
      && Partition(heap.live, Blocks(a.frames), DataBlocks(d), leaked)
    }

    lemma ValidWhenUp()
      requires pSanSymTool.Some? && pDataInfoBuf != null && pAddrInfoBuf != null
      ensures Valid() <==> UpFacts(pAddrInfoBuf, pDataInfoBuf)
    {
    }

    lemma DownOrUp()
      requires Valid()
      ensures (pDataInfoBuf == null <==> pAddrInfoBuf == null) && (pAddrInfoBuf == null <==> pSanSymTool == None)
    {
    }

    method FreeDataRes()
      requires Valid()
      modifies `data, heap, pDataInfoBuf
      ensures Valid() && Abs() == WithoutStrings(old(Abs()))
      ensures pDataInfoBuf != null ==> pDataInfoBuf.name == null && pDataInfoBuf.file == null
    {
      hide Valid, Owned, Views, Blocks, Distinct, Text, Partition;
      DownOrUp();
      if pDataInfoBuf != null {
        ValidWhenUp();
        ghost var res := pAddrInfoBuf;
        var info := pDataInfoBuf;
        ghost var live, lost, kept := heap.live, DataBlocks(info), Blocks(res.frames);
        FramesLive(live, kept, lost, leaked);
        DataLive(live, kept, lost, leaked);
        data := data.(name := None, file := None);
        FreeDataStrings(heap, info);
        assert Views(res.frames) == frames;
        assert DataBlocks(info) == {};
        assert Partition(heap.live, kept, {}, leaked) by {
          DropData(live, kept, lost, leaked, heap.live);
        }
        ValidWhenUp();
      }
    }

    method FreeAddrRes()
      requires Valid()
      modifies `frames, heap, pAddrInfoBuf
      ensures Valid() && Abs() == WithFrames(old(Abs()), [])
      ensures pAddrInfoBuf != null ==> pAddrInfoBuf.frames == []
    {
      hide Valid, Owned, Views, Blocks, Distinct, Text, Partition, DataBlocks, DataView;
      DownOrUp();
      if pAddrInfoBuf != null {
        ValidWhenUp();
        var res := pAddrInfoBuf;
        ghost var info := pDataInfoBuf;
        ghost var live, lost, kept := heap.live, Blocks(res.frames), DataBlocks(info);
        FramesLive(live, lost, kept, leaked);
        DataLive(live, lost, kept, leaked);
        FreeStrings(heap, res.frames);
        res.frames, frames := [], [];
        NoFrames();
        assert DataView(info) == data;
        assert Partition(heap.live, {}, kept, leaked) by {
          DropFrames(live, lost, kept, leaked, heap.live);
        }
        ValidWhenUp();
      }
    }

    method Fini()
      requires Valid()
      modifies this, heap, pDataInfoBuf, pAddrInfoBuf
      ensures Valid() && Abs() == World(Down, old(Abs()).leaked)
      ensures pDataInfoBuf == null && pAddrInfoBuf == null && pSanSymTool == None
      ensures heap.live == leaked == old(leaked)
    {
      hide Valid, Owned;
      FreeDataRes();
      FreeAddrRes();
      NothingOwned();
      pSanSymTool := None;
      pDataInfoBuf := null;
      pAddrInfoBuf := null;
      NoSession();
    }

    /** A reply that takes the parser outside its input ends in a fault, after which nothing is promised. */
    method SendAddrDat(reply: Option<string>, nFrames: nat) returns (outcome: ParseOutcome, code: RetCode, n: nat)
      requires Valid() && GoodCall(AddrSend(reply))
      modifies `frames, heap, pAddrInfoBuf
      ensures outcome == CallOutcome(old(Abs()), AddrSend(reply))
      ensures outcome == Parsed ==> Valid() && code == AddrSendCode(old(Abs()), reply)
      ensures outcome == Parsed ==>
                if code == YesSendDone
                then Abs() == WithFrames(old(Abs()), old(frames) + ParseFrames(reply.value))
                    && n == |old(frames) + ParseFrames(reply.value)|
                else Abs() == old(Abs()) && n == nFrames
    {
      hide Valid, Owned, ParseFrames, ReplyOutcome;
      outcome, n := Parsed, nFrames;
      DownOrUp();
      if !(pSanSymTool.Some? && pAddrInfoBuf != null) {
        return Parsed, ErrHasNullptr, n;
      }
      if reply.Some? {
        outcome, n := SymbolizeAddr(reply.value);
        code := YesSendDone;
      } else {
        code := ErrSymbolizeFailed;
      }
    }

    /** SymbolizeAddr of either tool once the reply is there, and the number of frames after it. */
    method SymbolizeAddr(text: string) returns (outcome: ParseOutcome, n: nat)
      requires Valid() && pSanSymTool.Some? && pAddrInfoBuf != null && Without(text, NUL)
      modifies `frames, heap, pAddrInfoBuf
      ensures outcome == ReplyOutcome(text)
      ensures outcome == Parsed ==>
                Valid() && frames == old(frames) + ParseFrames(text) && n == |frames|
    {
      hide Valid, Owned, Views, Blocks, Distinct, Text, DataView, DataBlocks, ParseFrames, ReplyOutcome, Partition,
          Owns, Without;
      DownOrUp();
      ValidWhenUp();
      var res := pAddrInfoBuf;
      ghost var before := res.frames;
      ghost var live, kept := heap.live, Blocks(before);
      ghost var added, owned;
      outcome, added, owned := ParseSymbolizeAddrOutput(heap, text, res);
      n := |res.frames|;
      if outcome == Parsed {
        AddFrames(live, kept, DataBlocks(pDataInfoBuf), leaked, owned);
        FramesAppend(before, added, owned, frames, ParseFrames(text));
        frames := frames + ParseFrames(text);
        assert UpFacts(res, pDataInfoBuf);
        ValidWhenUp();
      }
    }

    method ReadAddrDat(idx: nat) returns (code: RetCode, frame: Option<FrameDat>)
      requires Valid()
      ensures Valid()
      ensures FrameRead(code, if frame == None then None else Some(View(frame.value))) == Step(Abs(), AddrRead(idx)).1
    {
      frame := None;
      if pAddrInfoBuf == null {
        return ErrHasNullptr, None;
      }
      if idx >= |pAddrInfoBuf.frames| {
        return ErrOutOfBound, None;
      }
      ViewsAt(pAddrInfoBuf.frames, idx);
      BlocksMember(pAddrInfoBuf.frames, idx);
      frame := Some(pAddrInfoBuf.frames[idx]);
      code := YesReadDone;
    }

    method SendDataDat(reply: Option<string>) returns (code: RetCode)
      requires Valid() && GoodCall(DataSend(reply))
      modifies `leaked, `data, heap, pDataInfoBuf
      ensures Valid() && code == DataSendCode(old(Abs()), reply)
      ensures Abs() == if code == YesSendDone then WithData(old(Abs()), RecordOf(reply.value)) else old(Abs())
    {
      hide Views, Blocks, Distinct, DataView, DataBlocks, RecordOf;
      if !(pSanSymTool.Some? && pDataInfoBuf != null) {
        return ErrHasNullptr;
      }
      // Addr2LinePool::SymbolizeData always fails.
      if pSanSymTool.value == RunLlvmSymbolizer && reply.Some? {
        SymbolizeData(reply.value);
        code := YesSendDone;
      } else {
        code := ErrSymbolizeFailed;
      }
    }

    /** LLVMSymbolizer::SymbolizeData once the reply is there. */
    method SymbolizeData(text: string)
      requires Valid() && pSanSymTool.Some? && pDataInfoBuf != null && Without(text, NUL)
      modifies `leaked, `data, heap, pDataInfoBuf
      ensures Valid() && Abs() == WithData(old(Abs()), RecordOf(text))
    {
      hide Valid, Owned, Views, Blocks, Distinct, DataView, DataBlocks, ParseData, RecordOf, Holds, Without, Partition;
      DownOrUp();
      ValidWhenUp();
      var info := pDataInfoBuf;
      ghost var res := pAddrInfoBuf;
      ghost var live, lost, fs := heap.live, DataBlocks(info), res.frames;
      DataCount(info);
      FramesLive(live, Blocks(fs), lost, leaked);
      LeakCount(live, Blocks(fs), lost, leaked);
      ghost var leakedBefore := leaked;
      leaked, data := leaked + lost, RecordOf(text);
      ParseSymbolizeDataOutput(heap, text, info);
      RecordRead(info, text);
      assert res.frames == fs && Views(fs) == frames;
      assert Partition(heap.live, Blocks(fs), DataBlocks(info), leaked) by {
        LeakData(live, Blocks(fs), lost, leakedBefore, DataBlocks(info), heap.live, leaked);
      }
      ValidWhenUp();
    }

    method ReadDataDat()
      returns (code: RetCode, file: array?<char>, name: array?<char>, line: nat, start: nat, size: nat)
      requires Valid()
      ensures Valid()
      ensures DataReadBack(code, if code == YesReadDone
                                 then Some(Data(TextOf(name), TextOf(file), start, size, line)) else None)
           == Step(Abs(), DataRead).1
    {
      file, name, line, start, size := null, null, 0, 0, 0;
      if pDataInfoBuf == null {
        return ErrHasNullptr, file, name, line, start, size;
      }
      file := pDataInfoBuf.file;
      name := pDataInfoBuf.name;
      line := pDataInfoBuf.line;
      start := pDataInfoBuf.start;
      size := pDataInfoBuf.size;
      code := YesReadDone;
    }

    /* ---------- any sequence of calls ---------- */

    /** One call of the public interface does what the abstract session does, unless it ends in a fault. */
    method Perform(c: Call) returns (outcome: ParseOutcome, ghost r: Response)
      requires Valid() && GoodCall(c)
      modifies this, heap, pDataInfoBuf, pAddrInfoBuf
      ensures outcome == CallOutcome(old(Abs()), c)
      ensures outcome == Parsed ==>
                && Valid() && (Abs(), r) == Step(old(Abs()), c)
                && (pDataInfoBuf == null || pDataInfoBuf == old(pDataInfoBuf) || fresh(pDataInfoBuf))
                && (pAddrInfoBuf == null || pAddrInfoBuf == old(pAddrInfoBuf) || fresh(pAddrInfoBuf))
                && (c.Fini? ==> heap.live == leaked)
    {
      hide Valid, Owned, SelectTool, ParseFrames, RecordOf, Fresh, WithFrames, WithData, WithoutStrings, ReplyOutcome;
      DownOrUp();
      outcome, r := Parsed, Void;
      match c {
        case Init(path, executable) =>
          var code := Init(path, executable);
          r := Done(code);
        case Fini =>
          Fini();
        case AddrSend(reply) =>
          var code, n;
          outcome, code, n := SendAddrDat(reply, 0);
          r := Sent(code, if code == YesSendDone then Some(n) else None);
        case AddrRead(idx) =>
          var code, frame := ReadAddrDat(idx);
          r := FrameRead(code, if frame == None then None else Some(View(frame.value)));
        case AddrFree =>
          FreeAddrRes();
        case DataSend(reply) =>
          var code := SendDataDat(reply);
          r := Done(code);
        case DataRead =>
          var code, file, name, line, start, size := ReadDataDat();
          r := DataReadBack(code, if code == YesReadDone
                                  then Some(Data(TextOf(name), TextOf(file), start, size, line)) else None);
        case DataFree =>
          FreeDataRes();
      }
    }

    /**
     Any sequence of calls from the start follows the abstract session, unless a reply makes it end in a
     fault. After a final fini the live strings are the leaked ones, and exactly a careful caller leaves none.
     */
    method Run(calls: seq<Call>) returns (outcome: ParseOutcome)
      requires Valid() && Abs() == START
      requires forall i :: 0 <= i < |calls| ==> GoodCall(calls[i])
      modifies this, heap, pDataInfoBuf, pAddrInfoBuf
      ensures outcome == Outcome(calls)
      ensures outcome == Parsed ==>
                && Valid() && Abs() == Exec(calls)
                && (calls != [] && calls[|calls| - 1].Fini? ==>
                      |heap.live| == Exec(calls).leaked && (heap.live == {} <==> Careful(calls)))
    {
      hide Valid, Step, GoodCall, Careful, CallOutcome;
      outcome := Parsed;
      for i := 0 to |calls|
        invariant Valid() && Abs() == Exec(calls[..i]) && outcome == Outcome(calls[..i]) == Parsed
        invariant pDataInfoBuf == null || pDataInfoBuf == old(pDataInfoBuf) || fresh(pDataInfoBuf)
        invariant pAddrInfoBuf == null || pAddrInfoBuf == old(pAddrInfoBuf) || fresh(pAddrInfoBuf)
        invariant i > 0 && calls[i - 1].Fini? ==> heap.live == leaked
      {
        assert calls[..i + 1][..i] == calls[..i];
        ghost var r;
        outcome, r := Perform(calls[i]);
        if outcome != Parsed {
          FaultStays(calls, i + 1);
          return;
        }
      }
      assert calls[..|calls|] == calls;
      LeaksExactly(calls);
    }
  }
}
