/** Reading a block request out of a descriptor chain (section 5.2.6 of VIRTIO 1.2, with the
    header packed into the first descriptor's address): type, sector, data length, data
    bytes, and what the device does with the request. */
module BlockRequest {
  import opened Common
  import opened VirtQueue
  import opened IoEngine

  const T_IN: nat := 0
  const T_OUT: nat := 1
  const T_FLUSH: nat := 4
  const SECTOR_SIZE: nat := 512
  const TWO32: nat := 0x1_0000_0000

  datatype Header = Header(reqType: U32, sector: U32)

  /** `overflowChecks` is the build setting that turns an overflowing sum into a panic. */
  datatype Device = Device(capacitySectors: nat, overflowChecks: bool)

  function ParseHeader(chain: seq<Desc>): Header {
    if |chain| == 0 then Header(0, 0)
    else Header(chain[0].addr % TWO32, chain[0].addr / TWO32)
  }

  /** The guest's packing of the header. */
  function PackHeader(h: Header): U64 {
    h.sector * TWO32 + h.reqType
  }

  lemma HeaderRoundTrip(h: Header, d: Desc, rest: seq<Desc>)
    requires d.addr == PackHeader(h)
    ensures ParseHeader([d] + rest) == h
  {
  }

  /** Everything between the header and the status descriptor. */
  function DataDescs(chain: seq<Desc>): seq<Desc> {
    if |chain| > 2 then chain[1..|chain| - 1] else []
  }

  function SumLens(ds: seq<Desc>): nat {
    if |ds| == 0 then 0 else SumLens(ds[..|ds| - 1]) + ds[|ds| - 1].len
  }

  function Fill(n: nat, pattern: U8): (s: seq<U8>)
    ensures |s| == n
  {
    seq(n, _ => pattern)
  }

  /** The bytes of the data descriptors, one segment per descriptor, in chain order. */
  function FillBytes(ds: seq<Desc>): (s: seq<U8>)
    ensures |s| == SumLens(ds)
  {
    if |ds| == 0 then []
    else
      var last := ds[|ds| - 1];
      FillBytes(ds[..|ds| - 1]) + Fill(last.len, last.addr % 256)
  }

  function CeilDiv(n: nat, d: nat): nat
    requires d > 0
  {
    (n + d - 1) / d
  }

  predicate FitsDevice(dev: Device, sector: nat, len: nat) {
    sector + CeilDiv(len, SECTOR_SIZE) <= dev.capacitySectors
  }

  datatype Plan = Reply(len: U32) | Panic | Submit(op: IoOp, buffer: seq<U8>, total: U32)

  function PlanFor(chain: seq<Desc>, dev: Device): Plan {
    if |chain| == 0 then Reply(0)
    else
      var h, ds := ParseHeader(chain), DataDescs(chain);
      var sum := SumLens(ds);
      if h.reqType == T_OUT then
        if sum >= TWO32 then Panic
        else if !FitsDevice(dev, h.sector, sum) then Reply(1)
        else Submit(Write(h.sector * SECTOR_SIZE, FillBytes(ds)), FillBytes(ds), sum)
      else if h.reqType == T_IN then
        if dev.overflowChecks && sum >= TWO32 then Panic
        else
          var len := sum % TWO32;
          if !FitsDevice(dev, h.sector, len) then Reply(1)
          else Submit(Read(h.sector * SECTOR_SIZE, len), Fill(len, 0), len)
      else if h.reqType == T_FLUSH then Submit(Flush, [], 0)
      else Reply(1)
  }

  ghost predicate InsideDevice(op: IoOp, dev: Device) {
    match op
    case Read(offset, len) => offset + len <= dev.capacitySectors * SECTOR_SIZE
    case Write(offset, data) => offset + |data| <= dev.capacitySectors * SECTOR_SIZE
    case Flush => true
  }

  /** Whatever the guest writes into its descriptors, a submitted operation stays inside the
      device, its buffer has the announced length, and a write carries the data segments. */
  lemma SubmittedInside(chain: seq<Desc>, dev: Device)
    requires PlanFor(chain, dev).Submit?
    ensures var p := PlanFor(chain, dev);
            && InsideDevice(p.op, dev)
            && |p.buffer| == p.total
            && (p.op.Write? ==> p.op.data == p.buffer == FillBytes(DataDescs(chain)))
            && (p.op.Read? ==> p.op.len == p.total)
  {
    var p := PlanFor(chain, dev);
    var sector := ParseHeader(chain).sector;
    var end := sector + CeilDiv(p.total, SECTOR_SIZE);
    assert CeilDiv(p.total, SECTOR_SIZE) * SECTOR_SIZE >= p.total;
    assert end <= dev.capacitySectors ==> end * SECTOR_SIZE <= dev.capacitySectors * SECTOR_SIZE;
  }

  /** The sector check rounds the length up, yet it is exactly the test on bytes. */
  lemma FitsIffBytesFit(dev: Device, sector: nat, len: nat)
    ensures FitsDevice(dev, sector, len) <==>
              sector * SECTOR_SIZE + len <= dev.capacitySectors * SECTOR_SIZE
  {
    var c := CeilDiv(len, SECTOR_SIZE);
    assert c * SECTOR_SIZE >= len && (len > 0 ==> (c - 1) * SECTOR_SIZE < len);
  }

  /** A read or write whose lengths fit a u32 is submitted if its bytes lie inside the device,
      and answered at once with 1 if they do not; no other request type but flush is ever
      submitted. */
  lemma AcceptedIffInside(chain: seq<Desc>, dev: Device)
    requires |chain| > 0 && SumLens(DataDescs(chain)) < TWO32
    ensures var h, sum, p := ParseHeader(chain), SumLens(DataDescs(chain)), PlanFor(chain, dev);
            var inside := h.sector * SECTOR_SIZE + sum <= dev.capacitySectors * SECTOR_SIZE;
            && (h.reqType == T_OUT || h.reqType == T_IN ==>
                  if inside then p.Submit? && p.total == sum else p == Reply(1))
            && (h.reqType == T_FLUSH ==> p.Submit? && p.op == Flush)
            && (h.reqType !in {T_IN, T_OUT, T_FLUSH} ==> p == Reply(1))
  {
    FitsIffBytesFit(dev, ParseHeader(chain).sector, SumLens(DataDescs(chain)));
  }

  /** The data lengths do not sum to a u32, and the request is a write, or a read in a build
      with overflow checks. */
  predicate Oversized(chain: seq<Desc>, dev: Device) {
    && SumLens(DataDescs(chain)) >= TWO32
    && (|| ParseHeader(chain).reqType == T_OUT
        || (ParseHeader(chain).reqType == T_IN && dev.overflowChecks))
  }

  /** The device panics on exactly the oversized requests. */
  lemma PanicIff(chain: seq<Desc>, dev: Device)
    ensures PlanFor(chain, dev).Panic? <==> Oversized(chain, dev)
  {
  }

  // ---------------------------------------------------------------------------
  // What a request asks for, read off its descriptors
  // ---------------------------------------------------------------------------

  /** Type in the low 32 bits of the first descriptor's address, sector of 512 bytes in the
      high ones; the lengths and the bytes come from the descriptors between the first and the
      last. */
  ghost predicate Serves(chain: seq<Desc>, op: IoOp) {
    |chain| > 0
    && var reqType, offset := chain[0].addr % 0x1_0000_0000, 512 * (chain[0].addr / 0x1_0000_0000);
    var data := if |chain| > 2 then chain[1..|chain| - 1] else [];
    && (op.Read? <==> reqType == 0) && (op.Write? <==> reqType == 1) && (op.Flush? <==> reqType == 4)
    && (op.Read? ==> op.offset == offset && op.len == SumLens(data) % 0x1_0000_0000)
    && (op.Write? ==> op.offset == offset && Carries(op.data, data))
  }

  /** The bytes are those of the segments, one after the other, each all one byte. */
  ghost predicate Carries(bytes: seq<U8>, ds: seq<Desc>) {
    && |bytes| == SumLens(ds)
    && forall k :: 0 <= k < |ds| ==> CarriesSegment(bytes, ds, k)
  }

  ghost predicate CarriesSegment(bytes: seq<U8>, ds: seq<Desc>, k: nat)
    requires k < |ds|
  {
    var start := SumLens(ds[..k]);
    start + ds[k].len <= |bytes| && forall i :: start <= i < start + ds[k].len ==> bytes[i] == ds[k].addr % 256
  }

  /** Every submitted operation is the one its chain asks for. */
  lemma SubmittedServes(chain: seq<Desc>, dev: Device)
    requires PlanFor(chain, dev).Submit?
    ensures Serves(chain, PlanFor(chain, dev).op)
  {
    FillCarries(DataDescs(chain));
  }

  lemma {:induction false} FillCarries(ds: seq<Desc>)
    ensures Carries(FillBytes(ds), ds)
  {
    if |ds| > 0 {
      var front := ds[..|ds| - 1];
      FillCarries(front);
      forall k | 0 <= k < |ds| ensures CarriesSegment(FillBytes(ds), ds, k) {
        if k < |front| {
          assert CarriesSegment(FillBytes(front), front, k) && front[..k] == ds[..k];
        } else {
          assert ds[..k] == front;
        }
      }
    }
  }

  /** Lengths add up in chain order, starting from nothing. */
  lemma LengthsAddUp(ds: seq<Desc>, k: nat)
    requires k < |ds|
    ensures SumLens([]) == 0 && SumLens(ds[..k + 1]) == SumLens(ds[..k]) + ds[k].len
  {
    PrefixSums(ds, k);
  }

  /** The answers to a well-formed request: header, data, status. A read or write is submitted
      exactly when its bytes lie on the device, a flush always, and anything else is refused. */
  lemma DecodedRequest(header: Desc, ds: seq<Desc>, status: Desc, dev: Device)
    requires SumLens(ds) < 0x1_0000_0000
    ensures var p := PlanFor([header] + ds + [status], dev);
            var reqType, offset := header.addr % 0x1_0000_0000, 512 * (header.addr / 0x1_0000_0000);
            var inside := offset + SumLens(ds) <= 512 * dev.capacitySectors;
            && (reqType == 0 ==>
                  if inside
                  then p.Submit? && p.op == Read(offset, SumLens(ds)) && forall b :: b in p.buffer ==> b == 0
                  else p == Reply(1))
            && (reqType == 1 ==>
                  if inside then p.Submit? && p.op.Write? && p.op.offset == offset && Carries(p.op.data, ds)
                  else p == Reply(1))
            && (reqType == 4 ==> p.Submit? && p.op == Flush)
            && (reqType !in {0, 1, 4} ==> p == Reply(1))
  {
    var chain := [header] + ds + [status];
    assert DataDescs(chain) == ds && chain[0] == header;
    AcceptedIffInside(chain, dev);
    if PlanFor(chain, dev).Submit? {
      SubmittedServes(chain, dev);
      assert |chain| > 2 ==> chain[1..|chain| - 1] == ds;
    }
  }

  /** The same from the descriptor table: a header, data descriptors and a status descriptor
      that the driver linked, writable or not, are decoded as that request. */
  lemma LaidOutRequest(table: seq<Desc>, head: nat, path: seq<nat>)
    requires LaidOut(table, head, path) && |path| >= 2
    ensures var n := |path| - 1;
            Chain(table, head)
            == [table[path[0]]] + seq(n - 1, k requires 0 <= k < n - 1 => table[path[k + 1]]) + [table[path[n]]]
  {
    WalkFindsLaidOut(table, head, path);
  }

  lemma {:induction false} PrefixSums(ds: seq<Desc>, k: nat)
    requires k <= |ds|
    ensures SumLens(ds[..k]) <= SumLens(ds)
    ensures k < |ds| ==> SumLens(ds[..k + 1]) == SumLens(ds[..k]) + ds[k].len
    decreases |ds|
  {
    if k < |ds| {
      assert ds[..k + 1][..k] == ds[..k];
      var shorter := ds[..|ds| - 1];
      if k < |ds| - 1 { PrefixSums(shorter, k); }
      assert shorter[..k] == ds[..k];
    } else {
      assert ds[..k] == ds;
    }
  }

  /** One more descriptor's segment, written where the previous ones end. */
  lemma ExtendFill(ds: seq<Desc>, k: nat)
    requires k < |ds|
    ensures FillBytes(ds[..k + 1]) == FillBytes(ds[..k]) + Fill(ds[k].len, ds[k].addr % 256)
  {
    assert ds[..k + 1][..k] == ds[..k];
  }

  /** data_len_from_chain: `None` is the overflow panic. */
  method DataLen(chain: seq<Desc>, overflowChecks: bool) returns (r: Option<U32>)
    ensures var sum := SumLens(DataDescs(chain));
            r == if overflowChecks && sum >= TWO32 then None else Some(sum % TWO32)
  {
    if |chain| <= 2 {
      return Some(0);
    }
    var ds := chain[1..|chain| - 1];
    r := TotalLen(ds, overflowChecks);
  }

  /** The u32 accumulation shared by both length computations. */
  method TotalLen(ds: seq<Desc>, overflowChecks: bool) returns (r: Option<U32>)
    ensures r == if overflowChecks && SumLens(ds) >= TWO32 then None else Some(SumLens(ds) % TWO32)
  {
    var total: U32 := 0;
    for k := 0 to |ds|
      invariant total == SumLens(ds[..k]) % TWO32
      invariant overflowChecks ==> total == SumLens(ds[..k])
    {
      PrefixSums(ds, k);
      PrefixSums(ds, k + 1);
      if overflowChecks && total + ds[k].len >= TWO32 {
        return None;
      }
      total := (total + ds[k].len) % TWO32;
    }
    assert ds[..|ds|] == ds;
    r := Some(total);
  }

  /** collect_data_from_chain: in either build it panics, `None`, exactly on an overflowing
      sum, and otherwise returns the concatenated segments. */
  method CollectData(chain: seq<Desc>, overflowChecks: bool) returns (r: Option<(seq<U8>, U32)>)
    ensures var ds := DataDescs(chain);
            r == if SumLens(ds) >= TWO32 then None else Some((FillBytes(ds), SumLens(ds)))
  {
    if |chain| <= 2 {
      return Some(([], 0));
    }
    var ds := chain[1..|chain| - 1];
    var total := TotalLen(ds, overflowChecks);
    if total.None? {
      return None;
    }
    var buf := new U8[total.value](_ => 0);
    var ok := FillBuffer(buf, ds);
    if !ok {
      return None;
    }
    r := Some((buf[..], total.value));
  }

  /** Writes each segment after the previous one; slicing past the buffer panics. */
  method FillBuffer(buf: array<U8>, ds: seq<Desc>) returns (ok: bool)
    requires buf.Length == SumLens(ds) % TWO32
    modifies buf
    ensures ok <==> SumLens(ds) < TWO32
    ensures ok ==> buf[..] == FillBytes(ds)
  {
    var offset := 0;
    for k := 0 to |ds|
      invariant offset == SumLens(ds[..k]) <= buf.Length
      invariant buf[..offset] == FillBytes(ds[..k])
    {
      PrefixSums(ds, k);
      PrefixSums(ds, k + 1);
      if offset + ds[k].len > buf.Length {
        return false;
      }
      FillSegment(buf, offset, ds[k].len, ds[k].addr % 256);
      ExtendFill(ds, k);
      offset := offset + ds[k].len;
    }
    assert ds[..|ds|] == ds;
    ok := true;
  }

  method FillSegment(buf: array<U8>, offset: nat, len: nat, pattern: U8)
    requires offset + len <= buf.Length
    modifies buf
    ensures buf[..offset + len] == old(buf[..offset]) + Fill(len, pattern)
  {
    for i := offset to offset + len
      invariant buf[..offset] == old(buf[..offset])
      invariant forall j :: offset <= j < i ==> buf[j] == pattern
    {
      buf[i] := pattern;
    }
  }

  /** The branches on the request type, with the buffers they build. */
  method DecideRequest(chain: seq<Desc>, dev: Device) returns (plan: Plan)
    requires |chain| > 0
    ensures plan == PlanFor(chain, dev)
    ensures plan.Submit? ==> Serves(chain, plan.op)
  {
    if PlanFor(chain, dev).Submit? { SubmittedServes(chain, dev); }
    var h := ParseHeader(chain);
    if h.reqType == T_OUT {
      var data := CollectData(chain, dev.overflowChecks);
      if data.None? {
        return Panic;
      }
      var (buf, len) := data.value;
      if h.sector + CeilDiv(len, SECTOR_SIZE) > dev.capacitySectors {
        return Reply(1);
      }
      return Submit(Write(h.sector * SECTOR_SIZE, buf), buf, len);
    } else if h.reqType == T_IN {
      var total := DataLen(chain, dev.overflowChecks);
      if total.None? {
        return Panic;
      }
      var len := total.value;
      if h.sector + CeilDiv(len, SECTOR_SIZE) > dev.capacitySectors {
        return Reply(1);
      }
      return Submit(Read(h.sector * SECTOR_SIZE, len), Fill(len, 0), len);
    } else if h.reqType == T_FLUSH {
      return Submit(Flush, [], 0);
    }
    return Reply(1);
  }
}
