/** What the guest's requests do to the disk: where each logged operation comes from, and what a
    later read returns. */
module BlockDisk {
  import opened Common
  import opened VirtQueue
  import opened IoEngine
  import opened BlockRequest
  import opened BlockBridge

  // ---------------------------------------------------------------------------
  // Every operation is one the guest asked for
  // ---------------------------------------------------------------------------

  /** Entry k of the kernel's log is what some published head asks for, in the descriptor table
      of some call; the request in flight under its id, if there is one, carries that head. */
  ghost predicate AskedFor(b: Bridge, tables: seq<seq<Desc>>, k: nat)
    requires k < |b.kernel.log|
  {
    exists t, p :: 0 <= t < |tables| && 0 <= p < |b.fifo.published| && AskedBy(b, tables[t], b.fifo.published[p], k)
  }

  ghost predicate AskedBy(b: Bridge, table: seq<Desc>, head: U16, k: nat)
    requires k < |b.kernel.log|
  {
    && head < |table| && Serves(Chain(table, head), b.kernel.log[k].op)
    && Chain(table, head)[0] == table[head]
    && forall r :: r in b.issued && r.userData == b.kernel.log[k].userData ==> r.head == head
  }

  ghost predicate AllAskedFor(b: Bridge, tables: seq<seq<Desc>>) {
    forall k :: 0 <= k < |b.kernel.log| ==> b.kernel.log[k].userData < b.nextUserData && AskedFor(b, tables, k)
  }

  /** What later steps leave: the log, the heads, and no new request under an old id. */
  ghost predicate Extends(b: Bridge, b': Bridge) {
    && b.kernel.log <= b'.kernel.log && b.fifo.published <= b'.fifo.published
    && b.nextUserData <= b'.nextUserData
    && forall r :: r in b'.issued ==> r in b.issued || r.userData >= b.nextUserData
  }

  lemma StillAskedFor(b: Bridge, b': Bridge, tables: seq<seq<Desc>>, tables': seq<seq<Desc>>, k: nat)
    requires AllAskedFor(b, tables) && Extends(b, b') && tables <= tables' && k < |b.kernel.log|
    ensures b'.kernel.log[k].userData < b'.nextUserData && AskedFor(b', tables', k)
  {
    assert AskedFor(b, tables, k);
    var t, p :| 0 <= t < |tables| && 0 <= p < |b.fifo.published| && AskedBy(b, tables[t], b.fifo.published[p], k);
    assert tables'[t] == tables[t] && b'.fifo.published[p] == b.fifo.published[p];
    assert AskedBy(b', tables'[t], b'.fifo.published[p], k);
  }

  lemma NextExtends(b: Bridge, table: seq<Desc>, dev: Device, env: Env)
    requires b.fifo.Backlog() > 0
    ensures Extends(b, Next(b, table, dev, env))
  {
  }

  lemma ChainHead(table: seq<Desc>, head: nat)
    requires |Chain(table, head)| > 0
    ensures head < |table| && Chain(table, head)[0] == table[head]
  {
  }

  /** The entry a step pushes is asked for by the head it pops. */
  lemma NextAsked(b: Bridge, table: seq<Desc>, dev: Device, env: Env)
    requires b.fifo.Backlog() > 0 && Increasing(b.issued, b.nextUserData)
    ensures var b' := Next(b, table, dev, env);
            var head, n := b.fifo.published[b.fifo.consumed], |b.kernel.log|;
            && (|b'.kernel.log| == n
                || (&& |b'.kernel.log| == n + 1 && AskedBy(b', table, head, n)
                    && b'.kernel.log[n].userData == b.nextUserData < b'.nextUserData))
  {
    var head := b.fifo.published[b.fifo.consumed];
    var chain := Chain(table, head);
    if PlanFor(chain, dev).Submit? {
      ChainHead(table, head);
      SubmittedServes(chain, dev);
    }
  }

  lemma NextKeepsAsked(b: Bridge, tables: seq<seq<Desc>>, dev: Device, env: Env)
    requires |tables| > 0 && AllAskedFor(b, tables) && Increasing(b.issued, b.nextUserData)
    requires b.fifo.Backlog() > 0
    ensures AllAskedFor(Next(b, tables[|tables| - 1], dev, env), tables)
  {
    var table := tables[|tables| - 1];
    var b' := Next(b, table, dev, env);
    NextExtends(b, table, dev, env);
    NextAsked(b, table, dev, env);
    forall k | 0 <= k < |b'.kernel.log|
      ensures b'.kernel.log[k].userData < b'.nextUserData && AskedFor(b', tables, k)
    {
      if k < |b.kernel.log| {
        StillAskedFor(b, b', tables, tables, k);
      } else {
        assert AskedBy(b', tables[|tables| - 1], b'.fifo.published[b.fifo.consumed], k);
      }
    }
  }

  lemma {:induction false} SubmitAllKeepsAsked(b: Bridge, tables: seq<seq<Desc>>, dev: Device, env: Env)
    requires |tables| > 0 && AllAskedFor(b, tables) && Increasing(b.issued, b.nextUserData)
    ensures AllAskedFor(SubmitAll(b, tables[|tables| - 1], dev, env).bridge, tables)
    decreases b.fifo.Backlog()
  {
    if b.fifo.Backlog() > 0 {
      var table := tables[|tables| - 1];
      NextKeepsAsked(b, tables, dev, env);
      NextIncreases(b, table, dev, env);
      if !PanicsOn(table, dev, b.fifo.published[b.fifo.consumed]) {
        SubmitAllKeepsAsked(Next(b, table, dev, env), tables, dev, env);
      }
    }
  }

  lemma Unchanged(b: Bridge, b': Bridge, tables: seq<seq<Desc>>)
    requires AllAskedFor(b, tables) && Extends(b, b') && b'.kernel.log == b.kernel.log
    ensures AllAskedFor(b', tables)
  {
    forall k | 0 <= k < |b'.kernel.log|
      ensures b'.kernel.log[k].userData < b'.nextUserData && AskedFor(b', tables, k)
    {
      StillAskedFor(b, b', tables, tables, k);
    }
  }

  function Tables(calls: seq<Call>): (ts: seq<seq<Desc>>)
    ensures |ts| == |calls|
  {
    seq(|calls|, k requires 0 <= k < |calls| => calls[k].table)
  }

  lemma LastTable(calls: seq<Call>)
    requires |calls| > 0
    ensures Tables(calls) == Tables(calls[..|calls| - 1]) + [calls[|calls| - 1].table]
  {
  }

  lemma MoreTables(b: Bridge, heads: seq<U16>, tables: seq<seq<Desc>>, table: seq<Desc>)
    requires AllAskedFor(b, tables)
    ensures AllAskedFor(WithHeads(b, heads), tables + [table])
  {
    var b' := WithHeads(b, heads);
    forall k | 0 <= k < |b'.kernel.log|
      ensures b'.kernel.log[k].userData < b'.nextUserData && AskedFor(b', tables + [table], k)
    {
      StillAskedFor(b, b', tables, tables + [table], k);
    }
  }

  /** In every run, whatever the guest and the kernel do, every entry ever pushed is a request
      of the guest: the type and place its head's first descriptor names, the length and bytes
      of the data descriptors, under the id of the request that will answer that head. */
  lemma {:induction false} EveryEntryAskedFor(calls: seq<Call>, dev: Device)
    ensures AllAskedFor(Run(Fresh, calls, dev), Tables(calls))
  {
    if |calls| > 0 {
      var before, c := calls[..|calls| - 1], calls[|calls| - 1];
      EveryEntryAskedFor(before, dev);
      IssuedIncrease(before, dev);
      LastTable(calls);
      var b := Run(Fresh, before, dev);
      CallKeepsAsked(b, c, dev, Tables(before));
      assert Run(Fresh, calls, dev) == CallOnce(b, c, dev).bridge;
    }
  }

  lemma CallKeepsAsked(b: Bridge, c: Call, dev: Device, tables: seq<seq<Desc>>)
    requires AllAskedFor(b, tables) && Increasing(b.issued, b.nextUserData)
    ensures AllAskedFor(CallOnce(b, c, dev).bridge, tables + [c.table])
  {
    var b0, more := WithHeads(b, c.heads), tables + [c.table];
    MoreTables(b, c.heads, tables, c.table);
    SubmitAllKeepsAsked(b0, more, dev, c.env);
    WaitExtends(b0, c.table, dev, c.env);
    Unchanged(SubmitAll(b0, c.table, dev, c.env).bridge, Process(b0, c.table, dev, c.env).bridge, more);
  }

  lemma WaitExtends(b: Bridge, table: seq<Desc>, dev: Device, env: Env)
    ensures var p, b' := SubmitAll(b, table, dev, env).bridge, Process(b, table, dev, env).bridge;
            Extends(p, b') && b'.kernel.log == p.kernel.log
  {
    var p := SubmitAll(b, table, dev, env).bridge;
    ProcessKeepsIssued(b, table, dev, env);
    if env.wait.Some? {
      var done := p.kernel.Finish(env.wait.value);
      var room := |p.inflight|;
      RetireKeepsKernel(p.(kernel := done.(cq := LeftInQueue(done.cq, room))), Taken(done.cq, room));
    }
  }

  /** What becomes of a popped head at once. One outside the table is answered with 0 and takes no
      id. Any other takes the next id: a refused one, or one whose submission fails, is answered
      with 1; an accepted one goes in flight under that id, with its own head, and is not answered
      yet; one that panics is neither answered nor in flight. */
  lemma FirstAnswer(b: Bridge, table: seq<Desc>, dev: Device, env: Env)
    requires b.fifo.Backlog() > 0
    ensures var head, b' := b.fifo.published[b.fifo.consumed], Next(b, table, dev, env);
            var p, id := PlanFor(Chain(table, head), dev), b.nextUserData;
            if head >= |table| then
              b'.fifo.used == b.fifo.used + [UsedElem(head, 0)] && b'.inflight == b.inflight && b'.nextUserData == id
            else
              && b'.nextUserData == id + 1
              && (p.Panic? ==> b'.fifo.used == b.fifo.used && b'.inflight == b.inflight)
              && (p.Reply? || (p.Submit? && env.verdict(id) != Accepted) ==>
                    b'.fifo.used == b.fifo.used + [UsedElem(head, 1)] && b'.inflight == b.inflight)
              && (p.Submit? && env.verdict(id) == Accepted ==>
                    && b'.fifo.used == b.fifo.used
                    && b'.inflight == b.inflight + [Request(id, head, p.buffer, p.total)])
  {
  }

  // ---------------------------------------------------------------------------
  // The disk
  // ---------------------------------------------------------------------------

  type Disk = seq<U8>

  /** The disk has room for the operation. */
  predicate OnDisk(disk: Disk, op: IoOp) {
    match op
    case Read(offset, len) => offset + len <= |disk|
    case Write(offset, data) => offset + |data| <= |disk|
    case Flush => true
  }

  ghost predicate AllOnDisk(disk: Disk, ops: seq<IoOp>) {
    forall k :: 0 <= k < |ops| ==> OnDisk(disk, ops[k])
  }

  function Written(disk: Disk, op: IoOp): (disk': Disk)
    requires OnDisk(disk, op)
    ensures |disk'| == |disk|
  {
    if op.Write? then disk[..op.offset] + op.data + disk[op.offset + |op.data|..] else disk
  }

  /** The disk once the operations have been carried out one after the other. */
  function AfterAll(disk: Disk, ops: seq<IoOp>): (disk': Disk)
    requires AllOnDisk(disk, ops)
    ensures |disk'| == |disk|
  {
    if |ops| == 0 then disk else Written(AfterAll(disk, ops[..|ops| - 1]), ops[|ops| - 1])
  }

  function ReadBack(disk: Disk, op: IoOp): seq<U8>
    requires op.Read? && OnDisk(disk, op)
  {
    disk[op.offset..op.offset + op.len]
  }

  predicate Covers(op: IoOp, at: nat) {
    op.Write? && op.offset <= at < op.offset + |op.data|
  }

  /** A byte that no operation from k on writes is as it was before them. */
  lemma {:induction false} ByteStays(disk: Disk, ops: seq<IoOp>, k: nat, at: nat)
    requires AllOnDisk(disk, ops) && k <= |ops| && at < |disk|
    requires forall j :: k <= j < |ops| ==> !Covers(ops[j], at)
    ensures AfterAll(disk, ops)[at] == AfterAll(disk, ops[..k])[at]
    decreases |ops|
  {
    if k == |ops| {
      assert ops[..k] == ops;
    } else {
      var front := ops[..|ops| - 1];
      ByteStays(disk, front, k, at);
      assert front[..k] == ops[..k] && !Covers(ops[|ops| - 1], at);
    }
  }

  /** The last write that covers a byte decides it. */
  lemma LastWriteDecides(disk: Disk, ops: seq<IoOp>, w: nat, at: nat)
    requires AllOnDisk(disk, ops) && w < |ops| && Covers(ops[w], at)
    requires forall j :: w < j < |ops| ==> !Covers(ops[j], at)
    ensures AfterAll(disk, ops)[at] == ops[w].data[at - ops[w].offset]
  {
    assert OnDisk(disk, ops[w]);
    ByteStays(disk, ops, w + 1, at);
    assert ops[..w + 1][..w] == ops[..w];
  }

  function Ops(log: seq<Sqe>): (ops: seq<IoOp>)
    ensures |ops| == |log|
  {
    seq(|log|, k requires 0 <= k < |log| => log[k].op)
  }

  lemma LogOnDisk(calls: seq<Call>, dev: Device, disk: Disk)
    requires |disk| == 512 * dev.capacitySectors
    ensures AllOnDisk(disk, Ops(Run(Fresh, calls, dev).kernel.log))
  {
    EveryOperationInside(calls, dev);
  }

  /** No operation between two positions writes where `op` writes. */
  ghost predicate LeftAlone(op: IoOp, ops: seq<IoOp>) {
    forall j, at :: 0 <= j < |ops| && Covers(op, at) ==> !Covers(ops[j], at)
  }

  /** A write, operations that leave its bytes alone, and a read of the same place and length. */
  lemma RoundTrip(disk: Disk, before: seq<IoOp>, w: IoOp, between: seq<IoOp>, r: IoOp)
    requires w.Write? && r.Read? && r.offset == w.offset && r.len == |w.data| && OnDisk(disk, r)
    requires AllOnDisk(disk, before + [w] + between) && LeftAlone(w, between)
    ensures ReadBack(AfterAll(disk, before + [w] + between), r) == w.data
  {
    var ops, n := before + [w] + between, |before|;
    assert ops[n] == w && ops[n + 1..] == between;
    var read := ReadBack(AfterAll(disk, ops), r);
    forall i | 0 <= i < |read| ensures read[i] == w.data[i] {
      assert Covers(w, w.offset + i);
      forall j | n < j < |ops| ensures !Covers(ops[j], w.offset + i) {
        assert ops[j] == between[j - n - 1];
      }
      LastWriteDecides(disk, ops, n, w.offset + i);
    }
  }

  /** In every run, carried out in the order of submission: a read of the place and length of an
      earlier write returns that write's bytes, if no write in between touched them. */
  lemma ReadsBackTheWrite(calls: seq<Call>, dev: Device, disk: Disk, w: nat, r: nat)
    requires |disk| == 512 * dev.capacitySectors
    requires var ops := Ops(Run(Fresh, calls, dev).kernel.log);
             && w < r < |ops| && ops[w].Write? && ops[r].Read?
             && ops[r].offset == ops[w].offset && ops[r].len == |ops[w].data|
             && LeftAlone(ops[w], ops[w + 1..r])
    ensures var ops := Ops(Run(Fresh, calls, dev).kernel.log);
            && AllOnDisk(disk, ops[..r]) && OnDisk(disk, ops[r])
            && ReadBack(AfterAll(disk, ops[..r]), ops[r]) == ops[w].data
  {
    LogOnDisk(calls, dev, disk);
    var ops := Ops(Run(Fresh, calls, dev).kernel.log);
    assert ops[..r] == ops[..w] + [ops[w]] + ops[w + 1..r];
    assert OnDisk(disk, ops[r]);
    RoundTrip(disk, ops[..w], ops[w], ops[w + 1..r], ops[r]);
  }

  /** The same for two requests of the guest: a write of n bytes to a sector and then a read of
      n bytes from it, both accepted, with other operations in between that do not write there.
      Bytes the write does not cover stay as they are. */
  lemma SectorRoundTrip(disk: Disk, dev: Device, writer: seq<Desc>, reader: seq<Desc>, between: seq<IoOp>)
    requires |disk| == 512 * dev.capacitySectors && |writer| > 2 && |reader| > 2
    requires writer[0].addr == reader[0].addr + 1 && reader[0].addr % 0x1_0000_0000 == 0
    requires SumLens(writer[1..|writer| - 1]) == SumLens(reader[1..|reader| - 1])
    requires PlanFor(writer, dev).Submit? && PlanFor(reader, dev).Submit?
    requires AllOnDisk(disk, between) && LeftAlone(PlanFor(writer, dev).op, between)
    ensures var w, r := PlanFor(writer, dev).op, PlanFor(reader, dev).op;
            && w.Write? && r.Read? && OnDisk(disk, w) && OnDisk(disk, r)
            && AllOnDisk(disk, [w] + between)
            && Carries(ReadBack(AfterAll(disk, [w] + between), r), writer[1..|writer| - 1])
            && forall at :: 0 <= at < |disk| && !Covers(w, at) ==> Written(disk, w)[at] == disk[at]
  {
    var w, r := PlanFor(writer, dev).op, PlanFor(reader, dev).op;
    SectorOps(disk, dev, writer, reader);
    assert [] + [w] + between == [w] + between;
    assert AllOnDisk(disk, [w] + between);
    RoundTrip(disk, [], w, between, r);
    OthersStay(disk, w);
  }

  lemma OthersStay(disk: Disk, op: IoOp)
    requires OnDisk(disk, op)
    ensures forall at :: 0 <= at < |disk| && !Covers(op, at) ==> Written(disk, op)[at] == disk[at]
  {
  }

  lemma SectorOps(disk: Disk, dev: Device, writer: seq<Desc>, reader: seq<Desc>)
    requires |disk| == 512 * dev.capacitySectors && |writer| > 2 && |reader| > 2
    requires writer[0].addr == reader[0].addr + 1 && reader[0].addr % 0x1_0000_0000 == 0
    requires SumLens(writer[1..|writer| - 1]) == SumLens(reader[1..|reader| - 1])
    requires PlanFor(writer, dev).Submit? && PlanFor(reader, dev).Submit?
    ensures var w, r := PlanFor(writer, dev).op, PlanFor(reader, dev).op;
            && w.Write? && r.Read? && OnDisk(disk, w) && OnDisk(disk, r)
            && r.offset == w.offset && r.len == |w.data| && Carries(w.data, writer[1..|writer| - 1])
  {
    SameSector(writer[0], reader[0]);
    SubmittedServes(writer, dev);
    SubmittedServes(reader, dev);
    SubmittedInside(writer, dev);
    SubmittedInside(reader, dev);
    NoPanicNoWrap(writer, dev);
  }

  lemma SameSector(w: Desc, r: Desc)
    requires w.addr == r.addr + 1 && r.addr % 0x1_0000_0000 == 0
    ensures w.addr / 0x1_0000_0000 == r.addr / 0x1_0000_0000 && w.addr % 0x1_0000_0000 == 1
  {
  }

  lemma NoPanicNoWrap(writer: seq<Desc>, dev: Device)
    requires |writer| > 2 && PlanFor(writer, dev).Submit? && PlanFor(writer, dev).op.Write?
    ensures SumLens(writer[1..|writer| - 1]) < 0x1_0000_0000
  {
  }
}
