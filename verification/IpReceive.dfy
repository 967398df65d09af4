/**
Receiving IPv4 packets one at a time and in lists.

The parts outside this file of the kernel (checks on the header, netfilter, the L3 master
device, the three ways to find a route, IP options, per-device settings) are functions of the
packet, bundled in `Env`. What is modelled is the control flow: the order of the stages, the
two loops that cut a list into batches, and the route hint that one packet passes on to later
ones. Delivering means handing the packet, with its route, to `dst_input`.
*/
module IpReceive {
  import opened Kernel

  datatype RouteType = Unicast | Local | Multicast | Broadcast

  datatype Dst = Dst(id: nat, rtType: RouteType, metadata: bool)

  datatype Packet = Packet(
    dev: nat, daddr: nat, saddr: nat, tos: nat, ihl: nat, fragment: bool, linkCast: bool,
    dst: Option<Dst>, hasSock: bool, body: nat)

  datatype Env = Env(
    netOf: nat -> nat,                             // dev_net
    check: (Packet, nat) -> Option<Packet>,        // ip_rcv_core; None drops
    hook: (Packet, nat, nat) -> Option<Packet>,    // NF_INET_PRE_ROUTING for device and net
    l3mdev: Packet -> Option<Packet>,              // l3mdev_ip_rcv; None means consumed
    customRules: nat -> bool,                      // fib4_has_custom_rules
    useHint: (Packet, nat, Packet) -> Option<Dst>, // ip_route_use_hint; None is an error
    demuxOn: nat -> bool,                          // early demux enabled in this net
    demux: (Packet, nat) -> Option<Packet>,        // early demux handler; None is an error
    route: (Packet, nat) -> Option<Dst>,           // ip_route_input_noref; None is an error
    options: (Packet, nat) -> Option<Packet>,      // ip_rcv_options; None drops
    dropLinkCast: nat -> bool)                     // drop unicast sent to a link broadcast

  // One packet

  predicate CanUseHint(p: Packet, hint: Option<Packet>) {
    hint.Some? && p.dst == None && hint.value.daddr == p.daddr && hint.value.tos == p.tos
  }

  predicate HasValidRoute(p: Packet) {
    p.dst.Some? && !p.dst.value.metadata
  }

  /** Finds the packet's route: by the hint, by early demux, or by a full lookup. */
  function FindRoute(e: Env, net: nat, p: Packet, dev: nat, hint: Option<Packet>): Option<Packet> {
    var hinted := CanUseHint(p, hint);
    var byHint := if hinted then e.useHint(p, dev, hint.value) else None;
    if hinted && byHint == None then None
    else
      var p1 := if hinted then p.(dst := byHint) else p;
      var early := e.demuxOn(net) && p1.dst == None && !p1.hasSock && !p1.fragment;
      var demuxed := if early then e.demux(p1, dev) else Some(p1);
      if demuxed == None then None
      else
        var p2 := demuxed.value;
        if HasValidRoute(p2) then Some(p2)
        else
          var found := e.route(p2, dev);
          if found == None then None else Some(p2.(dst := found))
  }

  /** Options and the rule against unicast in link-layer broadcasts. */
  function Accept(e: Env, p: Packet, dev: nat): (r: Option<Packet>)
    requires p.dst.Some?
    ensures r.Some? ==> r.value.dst.Some?
  {
    var parsed := if p.ihl > 5 then e.options(p, dev) else Some(p);
    if parsed == None || parsed.value.dst == None then None
    else
      var q := parsed.value;
      var cast := q.dst.value.rtType in {Multicast, Broadcast};
      if !cast && q.linkCast && e.dropLinkCast(dev) then None else Some(q)
  }

  /** ip_rcv_finish_core; None drops the packet. */
  function FinishCore(e: Env, net: nat, p: Packet, dev: nat, hint: Option<Packet>): (r: Option<Packet>)
    ensures r.Some? ==> r.value.dst.Some?
  {
    var routed := FindRoute(e, net, p, dev, hint);
    if routed == None || routed.value.dst == None then None else Accept(e, routed.value, dev)
  }

  /** ip_rcv_finish without the delivery. */
  function Finish(e: Env, net: nat, p: Packet, hint: Option<Packet>): (r: Option<Packet>)
    ensures r.Some? ==> r.value.dst.Some?
  {
    var q := e.l3mdev(p);
    if q == None then None else FinishCore(e, net, q.value, p.dev, hint)
  }

  function ToSeq(p: Option<Packet>): seq<Packet> {
    if p.Some? then [p.value] else []
  }

  /** The hook and what follows it, for a packet that passed the checks. */
  function AfterCheck(e: Env, q: Packet, dev: nat, net: nat): seq<Packet> {
    var hooked := e.hook(q, dev, net);
    if hooked == None then [] else ToSeq(Finish(e, net, hooked.value, None))
  }

  /** ip_rcv: what receiving one packet delivers. */
  function Rcv(e: Env, p: Packet): seq<Packet> {
    var net := e.netOf(p.dev);
    var checked := e.check(p, net);
    if checked == None then [] else AfterCheck(e, checked.value, p.dev, net)
  }

  function RcvEach(e: Env, ps: seq<Packet>): seq<Packet> {
    if ps == [] then [] else RcvEach(e, ps[..|ps| - 1]) + Rcv(e, ps[|ps| - 1])
  }

  // Lists

  function Flatten(batches: seq<seq<Packet>>): seq<Packet> {
    if batches == [] then [] else Flatten(batches[..|batches| - 1]) + batches[|batches| - 1]
  }

  function ExtractHint(e: Env, net: nat, p: Packet): Option<Packet>
    requires p.dst.Some?
  {
    if e.customRules(net) || p.dst.value.rtType == Broadcast then None else Some(p)
  }

  /** The state of the inner loop: batches already dispatched, the current one, its route, the hint. */
  datatype Inner = Inner(done: seq<seq<Packet>>, sublist: seq<Packet>, currDst: Option<Dst>, hint: Option<Packet>)

  const INNER_START := Inner([], [], None, None)

  /** A routed packet joins the current batch, or starts a new one and may become its hint. */
  function Join(st: Inner, q: Packet, hint: Option<Packet>): Inner {
    if st.currDst != q.dst then
      Inner(if st.sublist == [] then st.done else st.done + [st.sublist], [q], q.dst, hint)
    else
      st.(sublist := st.sublist + [q])
  }

  /** One round of the loop in ip_list_rcv_finish. */
  function InnerStep(e: Env, net: nat, st: Inner, p: Packet): Inner {
    var r := Finish(e, net, p, st.hint);
    if r == None then st else Join(st, r.value, ExtractHint(e, net, r.value))
  }

  function InnerRun(e: Env, net: nat, ps: seq<Packet>): Inner {
    if ps == [] then INNER_START else InnerStep(e, net, InnerRun(e, net, ps[..|ps| - 1]), ps[|ps| - 1])
  }

  /** What ip_list_rcv_finish delivers: the dispatched batches and the final one. */
  function ListFinish(e: Env, net: nat, ps: seq<Packet>): seq<Packet> {
    var st := InnerRun(e, net, ps);
    Flatten(st.done) + st.sublist
  }

  /** NF_HOOK_LIST: keeps the accepted packets, in order. */
  function HookList(e: Env, ps: seq<Packet>, dev: nat, net: nat): seq<Packet> {
    if ps == [] then [] else HookList(e, ps[..|ps| - 1], dev, net) + ToSeq(e.hook(ps[|ps| - 1], dev, net))
  }

  function SublistRcv(e: Env, ps: seq<Packet>, dev: nat, net: nat): seq<Packet> {
    ListFinish(e, net, HookList(e, ps, dev, net))
  }

  datatype Batch = Batch(dev: nat, net: nat, packets: seq<Packet>)

  /** The state of the outer loop: batches already dispatched and the current one. */
  datatype Outer = Outer(done: seq<Batch>, curr: Option<Batch>)

  function Batches(st: Outer): seq<Batch> {
    if st.curr == None then st.done else st.done + [st.curr.value]
  }

  /** A checked packet joins the current batch or starts a new one. */
  function JoinBatch(st: Outer, dev: nat, net: nat, q: Packet): Outer {
    if st.curr.Some? && st.curr.value.dev == dev && st.curr.value.net == net then
      st.(curr := Some(st.curr.value.(packets := st.curr.value.packets + [q])))
    else
      Outer(Batches(st), Some(Batch(dev, net, [q])))
  }

  /** One round of the loop in ip_list_rcv. */
  function OuterStep(e: Env, st: Outer, p: Packet): Outer {
    var net := e.netOf(p.dev);
    var r := e.check(p, net);
    if r == None then st else JoinBatch(st, p.dev, net, r.value)
  }

  function OuterRun(e: Env, ps: seq<Packet>): Outer {
    if ps == [] then Outer([], None) else OuterStep(e, OuterRun(e, ps[..|ps| - 1]), ps[|ps| - 1])
  }

  function DeliverBatch(e: Env, b: Batch): seq<Packet> {
    SublistRcv(e, b.packets, b.dev, b.net)
  }

  function DeliverBatches(e: Env, bs: seq<Batch>): seq<Packet> {
    if bs == [] then [] else DeliverBatches(e, bs[..|bs| - 1]) + DeliverBatch(e, bs[|bs| - 1])
  }

  /** ip_list_rcv: what receiving a list delivers. */
  function ListRcv(e: Env, ps: seq<Packet>): seq<Packet> {
    DeliverBatches(e, Batches(OuterRun(e, ps)))
  }

  // The loops

  method IpListRcvFinish(e: Env, net: nat, head: seq<Packet>) returns (delivered: seq<Packet>)
    ensures delivered == ListFinish(e, net, head)
  {
    var sublist: seq<Packet>, currDst: Option<Dst>, hint: Option<Packet> := [], None, None;
    delivered := [];
    ghost var done: seq<seq<Packet>> := [];
    for i := 0 to |head|
      invariant InnerRun(e, net, head[..i]) == Inner(done, sublist, currDst, hint)
      invariant delivered == Flatten(done)
    {
      assert head[..i + 1][..i] == head[..i];
      var skb := e.l3mdev(head[i]);
      if skb == None {
        continue;
      }
      var routed := FinishCore(e, net, skb.value, head[i].dev, hint);
      if routed == None {
        continue;
      }
      var dst := routed.value.dst;
      if currDst != dst {
        hint := ExtractHint(e, net, routed.value);
        if sublist != [] {
          ghost var more := done + [sublist];
          assert more[..|more| - 1] == done;
          delivered, done := delivered + sublist, more;
        }
        sublist, currDst := [], dst;
      }
      sublist := sublist + [routed.value];
    }
    assert head[..|head|] == head;
    delivered := delivered + sublist;
  }

  method IpListRcv(e: Env, head: seq<Packet>) returns (delivered: seq<Packet>)
    ensures delivered == ListRcv(e, head)
  {
    var curr: Option<Batch> := None;
    delivered := [];
    ghost var done: seq<Batch> := [];
    for i := 0 to |head|
      invariant OuterRun(e, head[..i]) == Outer(done, curr)
      invariant delivered == DeliverBatches(e, done)
    {
      assert head[..i + 1][..i] == head[..i];
      var dev, net := head[i].dev, e.netOf(head[i].dev);
      var skb := e.check(head[i], net);
      if skb == None {
        continue;
      }
      if curr == None || curr.value.dev != dev || curr.value.net != net {
        if curr.Some? {
          var hooked := HookList(e, curr.value.packets, curr.value.dev, curr.value.net);
          var sub := IpListRcvFinish(e, curr.value.net, hooked);
          ghost var more := done + [curr.value];
          assert more[..|more| - 1] == done;
          delivered, done := delivered + sub, more;
        }
        curr := Some(Batch(dev, net, []));
        assert [] + [skb.value] == [skb.value];
      }
      curr := Some(curr.value.(packets := curr.value.packets + [skb.value]));
    }
    assert head[..|head|] == head;
    if curr.Some? {
      var sub := IpListRcvFinish(e, curr.value.net, HookList(e, curr.value.packets, curr.value.dev, curr.value.net));
      assert (done + [curr.value])[..|done|] == done;
      delivered := delivered + sub;
    }
  }

  // Batching

  /** A non-empty batch with one route. */
  ghost predicate OneRoute(b: seq<Packet>) {
    b != [] && forall j :: 0 <= j < |b| ==> b[j].dst == b[0].dst
  }

  ghost predicate Parted(a: seq<Packet>, b: seq<Packet>) {
    a != [] && b != [] ==> a[0].dst != b[0].dst
  }

  /** Batches with one route each, neighbours with different routes. */
  ghost predicate AreRuns(batches: seq<seq<Packet>>) {
    && (forall i :: 0 <= i < |batches| ==> OneRoute(batches[i]))
    && (forall i :: 0 < i < |batches| ==> Parted(batches[i - 1], batches[i]))
  }

  lemma LongerLastRun(done: seq<seq<Packet>>, b: seq<Packet>, q: Packet)
    requires AreRuns(done + [b]) && b != [] && q.dst == b[0].dst
    ensures AreRuns(done + [b + [q]])
  {
    var before, after := done + [b], done + [b + [q]];
    assert OneRoute(before[|done|]);
    forall i | 0 <= i < |after|
      ensures OneRoute(after[i])
    {
      assert i < |done| ==> OneRoute(before[i]);
    }
    forall i | 0 < i < |after|
      ensures Parted(after[i - 1], after[i])
    {
      assert Parted(before[i - 1], before[i]);
    }
  }

  lemma NewRun(done: seq<seq<Packet>>, q: Packet)
    requires AreRuns(done) && (done != [] ==> done[|done| - 1] != [] && done[|done| - 1][0].dst != q.dst)
    ensures AreRuns(done + [[q]])
  {
    var after := done + [[q]];
    forall i | 0 <= i < |after|
      ensures OneRoute(after[i])
    {
      assert i < |done| ==> OneRoute(done[i]);
    }
    forall i | 0 < i < |after|
      ensures Parted(after[i - 1], after[i])
    {
      assert i < |done| ==> Parted(done[i - 1], done[i]);
    }
  }

  function AllBatches(st: Inner): seq<seq<Packet>> {
    if st.sublist == [] then st.done else st.done + [st.sublist]
  }

  /** The hint is the head of the batch still to be dispatched, and has the current route. */
  ghost predicate HintIsLive(st: Inner) {
    && (st.sublist == [] <==> st.currDst == None)
    && (forall i :: 0 <= i < |st.sublist| ==> st.sublist[i].dst == st.currDst)
    && (st.hint.Some? ==> st.sublist != [] && st.hint.value == st.sublist[0] && st.hint.value.dst == st.currDst)
  }

  /** The packets the inner loop keeps, each judged with the hint of that moment. */
  function Kept(e: Env, net: nat, ps: seq<Packet>): seq<Packet> {
    if ps == [] then []
    else
      var before := ps[..|ps| - 1];
      Kept(e, net, before) + ToSeq(Finish(e, net, ps[|ps| - 1], InnerRun(e, net, before).hint))
  }

  lemma FlattenSnoc(batches: seq<seq<Packet>>, b: seq<Packet>)
    ensures Flatten(batches + [b]) == Flatten(batches) + b
  {
    assert (batches + [b])[..|batches|] == batches;
  }

  lemma JoinExtendsBatches(st: Inner, q: Packet, hint: Option<Packet>)
    requires HintIsLive(st) && AreRuns(AllBatches(st)) && (st.sublist == [] ==> st.done == [])
    requires q.dst.Some? && (hint == None || hint == Some(q))
    ensures
      var st' := Join(st, q, hint);
      && HintIsLive(st') && AreRuns(AllBatches(st')) && st'.sublist != []
      && Flatten(st'.done) + st'.sublist == Flatten(st.done) + st.sublist + [q]
  {
    if st.currDst == q.dst {
      LongerLastRun(st.done, st.sublist, q);
    } else {
      NewRun(AllBatches(st), q);
      if st.sublist != [] {
        FlattenSnoc(st.done, st.sublist);
      }
    }
  }

  /**
  The inner loop cuts the kept packets into maximal runs with the same route and loses,
  duplicates or reorders none; at every round, the hint it passes on is alive.
  */
  lemma {:induction false} InnerLoopBatches(e: Env, net: nat, ps: seq<Packet>)
    ensures
      var st := InnerRun(e, net, ps);
      && HintIsLive(st) && AreRuns(AllBatches(st)) && (st.sublist == [] ==> st.done == [])
      && Flatten(st.done) + st.sublist == Kept(e, net, ps)
  {
    if ps != [] {
      InnerLoopBatches(e, net, ps[..|ps| - 1]);
      var st := InnerRun(e, net, ps[..|ps| - 1]);
      var r := Finish(e, net, ps[|ps| - 1], st.hint);
      if r.Some? {
        JoinExtendsBatches(st, r.value, ExtractHint(e, net, r.value));
      }
    }
  }

  /** The packets that pass the checks, in order. */
  function Checked(e: Env, ps: seq<Packet>): seq<Packet> {
    if ps == [] then []
    else Checked(e, ps[..|ps| - 1]) + ToSeq(e.check(ps[|ps| - 1], e.netOf(ps[|ps| - 1].dev)))
  }

  function Packets(bs: seq<Batch>): seq<Packet> {
    if bs == [] then [] else Packets(bs[..|bs| - 1]) + bs[|bs| - 1].packets
  }

  /** `q` came out of the checks for some packet of device `dev`. */
  ghost predicate CameFrom(e: Env, dev: nat, q: Packet) {
    exists p: Packet :: p.dev == dev && e.check(p, e.netOf(dev)) == Some(q)
  }

  ghost predicate BatchOk(e: Env, b: Batch) {
    && b.packets != [] && b.net == e.netOf(b.dev)
    && forall q :: q in b.packets ==> CameFrom(e, b.dev, q)
  }

  predicate Apart(a: Batch, b: Batch) {
    a.dev != b.dev || a.net != b.net
  }

  ghost predicate AreDeviceRuns(e: Env, bs: seq<Batch>) {
    && (forall i :: 0 <= i < |bs| ==> BatchOk(e, bs[i]))
    && (forall i :: 0 < i < |bs| ==> Apart(bs[i - 1], bs[i]))
  }

  lemma BatchGrows(e: Env, b: Batch, q: Packet)
    requires BatchOk(e, b) && CameFrom(e, b.dev, q)
    ensures BatchOk(e, b.(packets := b.packets + [q]))
  {
  }

  lemma FirstBatch(e: Env, dev: nat, q: Packet)
    requires CameFrom(e, dev, q)
    ensures BatchOk(e, Batch(dev, e.netOf(dev), [q]))
  {
  }

  lemma ReplaceLastBatch(e: Env, done: seq<Batch>, b: Batch, b': Batch)
    requires AreDeviceRuns(e, done + [b]) && BatchOk(e, b') && b'.dev == b.dev && b'.net == b.net
    ensures AreDeviceRuns(e, done + [b'])
  {
    var before, after := done + [b], done + [b'];
    forall i | 0 <= i < |after|
      ensures BatchOk(e, after[i])
    {
      assert i < |done| ==> BatchOk(e, before[i]);
    }
    forall i | 0 < i < |after|
      ensures Apart(after[i - 1], after[i])
    {
      assert Apart(before[i - 1], before[i]);
    }
  }

  lemma AddBatch(e: Env, done: seq<Batch>, b: Batch)
    requires AreDeviceRuns(e, done) && BatchOk(e, b) && (done != [] ==> Apart(done[|done| - 1], b))
    ensures AreDeviceRuns(e, done + [b])
  {
    var after := done + [b];
    forall i | 0 <= i < |after|
      ensures BatchOk(e, after[i])
    {
      assert i < |done| ==> BatchOk(e, done[i]);
    }
    forall i | 0 < i < |after|
      ensures Apart(after[i - 1], after[i])
    {
      assert i < |done| ==> Apart(done[i - 1], done[i]);
    }
  }

  lemma PacketsSnoc(bs: seq<Batch>, b: Batch)
    ensures Packets(bs + [b]) == Packets(bs) + b.packets
  {
    assert (bs + [b])[..|bs|] == bs;
  }

  lemma JoinAddsPacket(st: Outer, dev: nat, net: nat, q: Packet)
    ensures Packets(Batches(JoinBatch(st, dev, net, q))) == Packets(Batches(st)) + [q]
  {
    if st.curr.Some? && st.curr.value.dev == dev && st.curr.value.net == net {
      var b := st.curr.value;
      PacketsSnoc(st.done, b);
      PacketsSnoc(st.done, b.(packets := b.packets + [q]));
    } else {
      PacketsSnoc(Batches(st), Batch(dev, net, [q]));
    }
  }

  /** The current batch, if there is one, is the last of proper device runs. */
  ghost predicate OuterOk(e: Env, st: Outer) {
    && AreDeviceRuns(e, Batches(st))
    && (st.curr.Some? ==> BatchOk(e, st.curr.value))
    && (st.curr == None ==> st.done == [])
  }

  lemma JoinKeepsRuns(e: Env, st: Outer, dev: nat, q: Packet)
    requires OuterOk(e, st) && CameFrom(e, dev, q)
    ensures OuterOk(e, JoinBatch(st, dev, e.netOf(dev), q))
  {
    var net := e.netOf(dev);
    if st.curr.Some? && st.curr.value.dev == dev && st.curr.value.net == net {
      BatchGrows(e, st.curr.value, q);
      ReplaceLastBatch(e, st.done, st.curr.value, st.curr.value.(packets := st.curr.value.packets + [q]));
    } else {
      FirstBatch(e, dev, q);
      AddBatch(e, Batches(st), Batch(dev, net, [q]));
    }
  }

  lemma {:induction false} OuterLoopIsOk(e: Env, ps: seq<Packet>)
    ensures OuterOk(e, OuterRun(e, ps))
  {
    if ps != [] {
      OuterLoopIsOk(e, ps[..|ps| - 1]);
      var p := ps[|ps| - 1];
      var r := e.check(p, e.netOf(p.dev));
      if r.Some? {
        assert CameFrom(e, p.dev, r.value);
        JoinKeepsRuns(e, OuterRun(e, ps[..|ps| - 1]), p.dev, r.value);
      }
    }
  }

  lemma {:induction false} OuterLoopKeepsPackets(e: Env, ps: seq<Packet>)
    ensures Packets(Batches(OuterRun(e, ps))) == Checked(e, ps)
  {
    if ps != [] {
      OuterLoopKeepsPackets(e, ps[..|ps| - 1]);
      var p := ps[|ps| - 1];
      var r := e.check(p, e.netOf(p.dev));
      if r.Some? {
        JoinAddsPacket(OuterRun(e, ps[..|ps| - 1]), p.dev, e.netOf(p.dev), r.value);
      }
    }
  }

  /** The outer loop cuts the checked packets into maximal runs of one device and net, in order. */
  lemma OuterLoopBatches(e: Env, ps: seq<Packet>)
    ensures AreDeviceRuns(e, Batches(OuterRun(e, ps)))
    ensures Packets(Batches(OuterRun(e, ps))) == Checked(e, ps)
  {
    OuterLoopIsOk(e, ps);
    OuterLoopKeepsPackets(e, ps);
  }

  // List receive against single receive

  /** What is left of a packet after the checks and the hook. */
  function Hooked(e: Env, p: Packet): Option<Packet> {
    var net := e.netOf(p.dev);
    var checked := e.check(p, net);
    if checked == None then None else e.hook(checked.value, p.dev, net)
  }

  /** `p`, received after `h` on the same device, fares the same with and without the hint of `h`. */
  predicate HintAgrees(e: Env, h: Packet, p: Packet) {
    var net := e.netOf(h.dev);
    h.dev == p.dev && Hooked(e, h).Some? && Hooked(e, p).Some? ==>
      var r := Finish(e, net, Hooked(e, h).value, None);
      r.Some? ==>
        Finish(e, net, Hooked(e, p).value, ExtractHint(e, net, r.value)) == Finish(e, net, Hooked(e, p).value, None)
  }

  ghost predicate HintsAgree(e: Env) {
    forall h: Packet, p: Packet :: HintAgrees(e, h, p)
  }

  function FinishEach(e: Env, net: nat, qs: seq<Packet>): seq<Packet> {
    if qs == [] then [] else FinishEach(e, net, qs[..|qs| - 1]) + ToSeq(Finish(e, net, qs[|qs| - 1], None))
  }

  /** `q` is what checks and hook leave of some packet of device `dev`. */
  ghost predicate HookedFrom(e: Env, dev: nat, q: Packet) {
    exists p: Packet :: p.dev == dev && Hooked(e, p) == Some(q)
  }

  /** The hint stems from a packet of the list, received without a hint. */
  ghost predicate HintIsGenuine(e: Env, net: nat, dev: nat, hint: Option<Packet>) {
    hint.Some? ==>
      exists h: Packet :: h.dev == dev && Hooked(e, h).Some? &&
        Finish(e, net, Hooked(e, h).value, None) == hint && ExtractHint(e, net, hint.value) == hint
  }

  lemma GenuineHintAgrees(e: Env, net: nat, dev: nat, hint: Option<Packet>, q: Packet)
    requires HintsAgree(e) && net == e.netOf(dev) && HintIsGenuine(e, net, dev, hint) && HookedFrom(e, dev, q)
    requires hint.Some? ==> hint.value.dst.Some?
    ensures Finish(e, net, q, hint) == Finish(e, net, q, None)
  {
    if hint.Some? {
      var h: Packet :| h.dev == dev && Hooked(e, h).Some? &&
        Finish(e, net, Hooked(e, h).value, None) == hint && ExtractHint(e, net, hint.value) == hint;
      var p: Packet :| p.dev == dev && Hooked(e, p) == Some(q);
      assert HintAgrees(e, h, p);
    }
  }

  /** If hints agree, the inner loop delivers what its packets deliver one by one. */
  lemma {:induction false} InnerLoopIsEach(e: Env, net: nat, dev: nat, qs: seq<Packet>)
    requires HintsAgree(e) && net == e.netOf(dev) && forall q :: q in qs ==> HookedFrom(e, dev, q)
    ensures Kept(e, net, qs) == FinishEach(e, net, qs)
    ensures HintIsGenuine(e, net, dev, InnerRun(e, net, qs).hint)
  {
    if qs != [] {
      var before, q := qs[..|qs| - 1], qs[|qs| - 1];
      InnerLoopIsEach(e, net, dev, before);
      InnerLoopBatches(e, net, before);
      var st := InnerRun(e, net, before);
      assert HookedFrom(e, dev, q);
      GenuineHintAgrees(e, net, dev, st.hint, q);
      var p: Packet :| p.dev == dev && Hooked(e, p) == Some(q);
      assert InnerRun(e, net, qs).hint == st.hint || InnerRun(e, net, qs).hint == None
          || InnerRun(e, net, qs).hint == Finish(e, net, Hooked(e, p).value, None);
    }
  }

  /** Delivering a batch packet by packet. */
  function Direct(e: Env, b: Batch): seq<Packet> {
    FinishEach(e, b.net, HookList(e, b.packets, b.dev, b.net))
  }

  function DirectAll(e: Env, bs: seq<Batch>): seq<Packet> {
    if bs == [] then [] else DirectAll(e, bs[..|bs| - 1]) + Direct(e, bs[|bs| - 1])
  }

  lemma {:induction false} HookListComesFrom(e: Env, dev: nat, ps: seq<Packet>)
    requires forall q :: q in ps ==> CameFrom(e, dev, q)
    ensures forall q :: q in HookList(e, ps, dev, e.netOf(dev)) ==> HookedFrom(e, dev, q)
  {
    if ps != [] {
      HookListComesFrom(e, dev, ps[..|ps| - 1]);
      var last := ps[|ps| - 1];
      var r := e.hook(last, dev, e.netOf(dev));
      if r.Some? {
        assert CameFrom(e, dev, last);
        var p: Packet :| p.dev == dev && e.check(p, e.netOf(dev)) == Some(last);
        assert Hooked(e, p) == r;
      }
    }
  }

  lemma {:induction false} BatchesAreDirect(e: Env, bs: seq<Batch>)
    requires HintsAgree(e) && forall i :: 0 <= i < |bs| ==> BatchOk(e, bs[i])
    ensures DeliverBatches(e, bs) == DirectAll(e, bs)
  {
    if bs != [] {
      BatchesAreDirect(e, bs[..|bs| - 1]);
      var b := bs[|bs| - 1];
      assert BatchOk(e, b);
      HookListComesFrom(e, b.dev, b.packets);
      var qs := HookList(e, b.packets, b.dev, b.net);
      InnerLoopIsEach(e, b.net, b.dev, qs);
      InnerLoopBatches(e, b.net, qs);
    }
  }

  lemma FinishEachConcat(e: Env, net: nat, qs: seq<Packet>, r: Option<Packet>)
    ensures FinishEach(e, net, qs + ToSeq(r)) ==
            FinishEach(e, net, qs) + if r.Some? then ToSeq(Finish(e, net, r.value, None)) else []
  {
    if r.Some? {
      assert (qs + [r.value])[..|qs|] == qs;
    } else {
      assert qs + ToSeq(r) == qs;
    }
  }

  lemma DirectSnoc(e: Env, b: Batch, q: Packet)
    ensures Direct(e, b.(packets := b.packets + [q])) == Direct(e, b) + AfterCheck(e, q, b.dev, b.net)
  {
    assert (b.packets + [q])[..|b.packets|] == b.packets;
    FinishEachConcat(e, b.net, HookList(e, b.packets, b.dev, b.net), e.hook(q, b.dev, b.net));
  }

  lemma DirectAllSnoc(e: Env, bs: seq<Batch>, b: Batch)
    ensures DirectAll(e, bs + [b]) == DirectAll(e, bs) + Direct(e, b)
  {
    assert (bs + [b])[..|bs|] == bs;
  }

  lemma Assoc(a: seq<Packet>, b: seq<Packet>, c: seq<Packet>)
    ensures a + (b + c) == (a + b) + c
  {
  }

  lemma DirectLonger(e: Env, done: seq<Batch>, b: Batch, q: Packet)
    ensures DirectAll(e, done + [b.(packets := b.packets + [q])]) ==
            DirectAll(e, done + [b]) + AfterCheck(e, q, b.dev, b.net)
  {
    DirectAllSnoc(e, done, b.(packets := b.packets + [q]));
    DirectAllSnoc(e, done, b);
    DirectSnoc(e, b, q);
    Assoc(DirectAll(e, done), Direct(e, b), AfterCheck(e, q, b.dev, b.net));
  }

  lemma DirectOne(e: Env, dev: nat, net: nat, q: Packet)
    ensures Direct(e, Batch(dev, net, [q])) == AfterCheck(e, q, dev, net)
  {
    var empty := Batch(dev, net, []);
    DirectSnoc(e, empty, q);
    assert empty.(packets := empty.packets + [q]) == Batch(dev, net, [q]);
    assert Direct(e, empty) == [];
  }

  lemma DirectNew(e: Env, bs: seq<Batch>, dev: nat, net: nat, q: Packet)
    ensures DirectAll(e, bs + [Batch(dev, net, [q])]) == DirectAll(e, bs) + AfterCheck(e, q, dev, net)
  {
    DirectAllSnoc(e, bs, Batch(dev, net, [q]));
    DirectOne(e, dev, net, q);
  }

  lemma DirectStep(e: Env, st: Outer, p: Packet)
    ensures DirectAll(e, Batches(OuterStep(e, st, p))) == DirectAll(e, Batches(st)) + Rcv(e, p)
  {
    var net := e.netOf(p.dev);
    var r := e.check(p, net);
    if r.Some? {
      if st.curr.Some? && st.curr.value.dev == p.dev && st.curr.value.net == net {
        DirectLonger(e, st.done, st.curr.value, r.value);
      } else {
        DirectNew(e, Batches(st), p.dev, net, r.value);
      }
    }
  }

  /** Cutting a list into batches changes nothing if each batch is delivered packet by packet. */
  lemma {:induction false} DirectIsRcvEach(e: Env, ps: seq<Packet>)
    ensures DirectAll(e, Batches(OuterRun(e, ps))) == RcvEach(e, ps)
  {
    if ps != [] {
      DirectIsRcvEach(e, ps[..|ps| - 1]);
      DirectStep(e, OuterRun(e, ps[..|ps| - 1]), ps[|ps| - 1]);
    }
  }

  lemma PairIsOneBatch(e: Env, h: Packet, p: Packet, hc: Packet, pc: Packet)
    requires h.dev == p.dev && e.check(h, e.netOf(h.dev)) == Some(hc) && e.check(p, e.netOf(h.dev)) == Some(pc)
    ensures ListRcv(e, [h, p]) == SublistRcv(e, [hc, pc], h.dev, e.netOf(h.dev))
  {
    var b := Batch(h.dev, e.netOf(h.dev), [hc, pc]);
    assert [h, p][..1] == [h] && [h][..0] == [] && [hc] + [pc] == [hc, pc];
    assert OuterRun(e, [h]) == Outer([], Some(Batch(h.dev, e.netOf(h.dev), [hc])));
    assert Batches(OuterRun(e, [h, p])) == [b];
    assert [b][..0] == [];
    assert DeliverBatches(e, [b]) == DeliverBatches(e, []) + DeliverBatch(e, b);
  }

  lemma PairIsHooked(e: Env, dev: nat, net: nat, hc: Packet, pc: Packet, h1: Packet, p1: Packet)
    requires e.hook(hc, dev, net) == Some(h1) && e.hook(pc, dev, net) == Some(p1)
    ensures HookList(e, [hc, pc], dev, net) == [h1, p1]
  {
    assert [hc, pc][..1] == [hc] && [hc][..0] == [];
    assert HookList(e, [hc], dev, net) == [h1];
  }

  lemma PairOneByOne(e: Env, h: Packet, p: Packet)
    ensures RcvEach(e, [h, p]) == Rcv(e, h) + Rcv(e, p)
  {
    assert [h, p][..1] == [h] && [h][..0] == [];
    assert RcvEach(e, [h]) == Rcv(e, h);
  }

  /** Two packets of one device: the second one is judged with the hint of the first. */
  lemma PairDelivery(e: Env, h: Packet, p: Packet)
    requires h.dev == p.dev && Hooked(e, h).Some? && Hooked(e, p).Some?
    requires Finish(e, e.netOf(h.dev), Hooked(e, h).value, None).Some?
    ensures
      var net := e.netOf(h.dev);
      var first := Finish(e, net, Hooked(e, h).value, None).value;
      && ListRcv(e, [h, p]) == [first] + ToSeq(Finish(e, net, Hooked(e, p).value, ExtractHint(e, net, first)))
      && RcvEach(e, [h, p]) == [first] + ToSeq(Finish(e, net, Hooked(e, p).value, None))
  {
    var net := e.netOf(h.dev);
    var hc, pc := e.check(h, net).value, e.check(p, net).value;
    PairIsOneBatch(e, h, p, hc, pc);
    PairIsHooked(e, h.dev, net, hc, pc, Hooked(e, h).value, Hooked(e, p).value);
    PairFinish(e, net, Hooked(e, h).value, Hooked(e, p).value);
    PairOneByOne(e, h, p);
  }

  lemma PairFinish(e: Env, net: nat, h1: Packet, p1: Packet)
    requires Finish(e, net, h1, None).Some?
    ensures
      var first := Finish(e, net, h1, None).value;
      ListFinish(e, net, [h1, p1]) == [first] + ToSeq(Finish(e, net, p1, ExtractHint(e, net, first)))
  {
    var first := Finish(e, net, h1, None).value;
    assert [h1, p1][..1] == [h1] && [h1][..0] == [];
    assert InnerRun(e, net, [h1]) == Inner([], [first], first.dst, ExtractHint(e, net, first));
    InnerLoopBatches(e, net, [h1, p1]);
    assert Kept(e, net, [h1]) == [first];
  }

  /**
  Receiving a list delivers, for every list, what receiving its packets one by one delivers,
  exactly if no packet fares differently because of the hint of an earlier one.
  */
  lemma ListReceiveIsSingleReceiveIff(e: Env)
    ensures HintsAgree(e) <==> forall ps :: ListRcv(e, ps) == RcvEach(e, ps)
  {
    if HintsAgree(e) {
      forall ps: seq<Packet>
        ensures ListRcv(e, ps) == RcvEach(e, ps)
      {
        OuterLoopBatches(e, ps);
        BatchesAreDirect(e, Batches(OuterRun(e, ps)));
        DirectIsRcvEach(e, ps);
      }
    }
    if forall ps :: ListRcv(e, ps) == RcvEach(e, ps) {
      forall h: Packet, p: Packet
        ensures HintAgrees(e, h, p)
      {
        if h.dev == p.dev && Hooked(e, h).Some? && Hooked(e, p).Some?
           && Finish(e, e.netOf(h.dev), Hooked(e, h).value, None).Some? {
          PairDelivery(e, h, p);
          assert ListRcv(e, [h, p]) == RcvEach(e, [h, p]);
          var net := e.netOf(h.dev);
          var first := Finish(e, net, Hooked(e, h).value, None).value;
          SameTail(first, Finish(e, net, Hooked(e, p).value, ExtractHint(e, net, first)),
                   Finish(e, net, Hooked(e, p).value, None));
        }
      }
    }
  }

  lemma SameTail(first: Packet, a: Option<Packet>, b: Option<Packet>)
    requires [first] + ToSeq(a) == [first] + ToSeq(b)
    ensures a == b
  {
    assert ([first] + ToSeq(a))[1..] == ToSeq(a);
    assert ([first] + ToSeq(b))[1..] == ToSeq(b);
    assert a.Some? ==> ToSeq(a)[0] == a.value;
    assert b.Some? ==> ToSeq(b)[0] == b.value;
  }

  // Which packets are delivered

  /** The packet whose route is settled next: it took the hint, went through early demux, or neither. */
  ghost predicate IsCandidate(e: Env, net: nat, q: Packet, dev: nat, hint: Option<Packet>, m: Packet) {
    if hint.Some? && q.dst == None && hint.value.daddr == q.daddr && hint.value.tos == q.tos then
      m.dst.Some? && m.dst == e.useHint(q, dev, hint.value) && m == q.(dst := m.dst)
    else if q.dst == None && !q.hasSock && !q.fragment && e.demuxOn(net) then
      e.demux(q, dev) == Some(m)
    else
      m == q
  }

  /** A packet with a real route keeps it; any other one needs one from the full lookup. */
  ghost predicate IsSettled(e: Env, m: Packet, dev: nat, r: Packet) {
    if m.dst.Some? && !m.dst.value.metadata then r == m
    else r.dst.Some? && r.dst == e.route(m, dev) && r == m.(dst := r.dst)
  }

  /** A datagram in a link-layer broadcast must be for an IP broadcast or multicast address, if the device says so. */
  predicate ObeysLinkRule(e: Env, r: Packet, dev: nat) {
    r.linkCast && e.dropLinkCast(dev) ==>
      r.dst.Some? && r.dst.value.rtType != Unicast && r.dst.value.rtType != Local
  }

  /** `r` is what the packet `h`, past checks and hook and judged with `hint`, is delivered as. */
  ghost predicate IsDeliveredAs(e: Env, net: nat, h: Packet, hint: Option<Packet>, r: Packet) {
    exists q, m, routed ::
      && e.l3mdev(h) == Some(q)
      && IsCandidate(e, net, q, h.dev, hint, m)
      && IsSettled(e, m, h.dev, routed)
      && (if routed.ihl > 5 then e.options(routed, h.dev) == Some(r) else r == routed)
      && r.dst.Some? && ObeysLinkRule(e, r, h.dev)
  }

  lemma RoutedIff(e: Env, net: nat, q: Packet, dev: nat, hint: Option<Packet>, routed: Packet)
    ensures
      FindRoute(e, net, q, dev, hint) == Some(routed) <==>
      exists m :: IsCandidate(e, net, q, dev, hint, m) && IsSettled(e, m, dev, routed)
  {
    if CanUseHint(q, hint) {
      var byHint := e.useHint(q, dev, hint.value);
      assert byHint.Some? ==> IsCandidate(e, net, q, dev, hint, q.(dst := byHint));
    } else if e.demuxOn(net) && q.dst == None && !q.hasSock && !q.fragment {
      var m := e.demux(q, dev);
      assert m.Some? ==> IsCandidate(e, net, q, dev, hint, m.value);
    } else {
      assert IsCandidate(e, net, q, dev, hint, q);
    }
  }

  lemma AcceptedIff(e: Env, routed: Packet, dev: nat, r: Packet)
    requires routed.dst.Some?
    ensures
      Accept(e, routed, dev) == Some(r) <==>
      && (if routed.ihl > 5 then e.options(routed, dev) == Some(r) else r == routed)
      && r.dst.Some? && ObeysLinkRule(e, r, dev)
  {
  }

  lemma FinishedIsDelivered(e: Env, net: nat, h: Packet, hint: Option<Packet>, r: Packet)
    requires Finish(e, net, h, hint) == Some(r)
    ensures IsDeliveredAs(e, net, h, hint, r)
  {
    var q := e.l3mdev(h).value;
    var routed := FindRoute(e, net, q, h.dev, hint).value;
    RoutedIff(e, net, q, h.dev, hint, routed);
    AcceptedIff(e, routed, h.dev, r);
    var m :| IsCandidate(e, net, q, h.dev, hint, m) && IsSettled(e, m, h.dev, routed);
  }

  lemma DeliveredIsFinished(e: Env, net: nat, h: Packet, hint: Option<Packet>, r: Packet)
    requires IsDeliveredAs(e, net, h, hint, r)
    ensures Finish(e, net, h, hint) == Some(r)
  {
    var q, m, routed :|
      && e.l3mdev(h) == Some(q) && IsCandidate(e, net, q, h.dev, hint, m) && IsSettled(e, m, h.dev, routed)
      && (if routed.ihl > 5 then e.options(routed, h.dev) == Some(r) else r == routed)
      && r.dst.Some? && ObeysLinkRule(e, r, h.dev);
    RoutedIff(e, net, q, h.dev, hint, routed);
    assert FindRoute(e, net, q, h.dev, hint) == Some(routed) && routed.dst.Some?;
    AcceptedIff(e, routed, h.dev, r);
  }

  lemma FinishIff(e: Env, net: nat, h: Packet, hint: Option<Packet>, r: Packet)
    ensures Finish(e, net, h, hint) == Some(r) <==> IsDeliveredAs(e, net, h, hint, r)
  {
    if Finish(e, net, h, hint) == Some(r) {
      FinishedIsDelivered(e, net, h, hint, r);
    } else if IsDeliveredAs(e, net, h, hint, r) {
      DeliveredIsFinished(e, net, h, hint, r);
    }
  }

  /** Single receive delivers at most one packet, and `r` exactly if `r` is what the packet is delivered as. */
  lemma RcvDeliversIff(e: Env, p: Packet, r: Packet)
    ensures |Rcv(e, p)| <= 1
    ensures
      var net := e.netOf(p.dev);
      Rcv(e, p) == [r] <==>
      exists c, h :: e.check(p, net) == Some(c) && e.hook(c, p.dev, net) == Some(h) && IsDeliveredAs(e, net, h, None, r)
  {
    var net := e.netOf(p.dev);
    if Hooked(e, p).Some? {
      FinishIff(e, net, Hooked(e, p).value, None, r);
      assert Rcv(e, p) == ToSeq(Finish(e, net, Hooked(e, p).value, None));
      assert ToSeq(Finish(e, net, Hooked(e, p).value, None)) == [r] <==>
             Finish(e, net, Hooked(e, p).value, None) == Some(r) by {
        OneElement(Finish(e, net, Hooked(e, p).value, None), r);
      }
    }
  }

  lemma OneElement(p: Option<Packet>, r: Packet)
    ensures ToSeq(p) == [r] <==> p == Some(r)
  {
    if ToSeq(p) == [r] {
      assert p.Some? && ToSeq(p)[0] == [r][0];
    }
  }

  /** The hint with which a packet of device `dev` is judged that comes behind the packets `ps`. */
  function HintBehind(e: Env, ps: seq<Packet>, dev: nat): Option<Packet> {
    var st, net := OuterRun(e, ps), e.netOf(dev);
    if st.curr.Some? && st.curr.value.dev == dev && st.curr.value.net == net
    then InnerRun(e, net, HookList(e, st.curr.value.packets, dev, net)).hint
    else None
  }

  /** The hint is the head of the batch in progress, and there is one exactly if net and route type allow it. */
  ghost predicate HintIsHead(e: Env, net: nat, st: Inner) {
    if st.sublist == [] || e.customRules(net) || st.sublist[0].dst == None
       || st.sublist[0].dst.value.rtType == Broadcast
    then st.hint == None
    else st.hint == Some(st.sublist[0])
  }

  lemma JoinKeepsHead(e: Env, net: nat, st: Inner, q: Packet)
    requires HintIsHead(e, net, st) && (st.sublist == [] <==> st.currDst == None) && q.dst.Some?
    ensures HintIsHead(e, net, Join(st, q, ExtractHint(e, net, q)))
  {
    if st.currDst == q.dst {
      assert (st.sublist + [q])[0] == st.sublist[0];
    }
  }

  lemma {:induction false} HintIsHeadOfBatch(e: Env, net: nat, qs: seq<Packet>)
    ensures HintIsHead(e, net, InnerRun(e, net, qs))
  {
    if qs != [] {
      HintIsHeadOfBatch(e, net, qs[..|qs| - 1]);
      InnerLoopBatches(e, net, qs[..|qs| - 1]);
      var st := InnerRun(e, net, qs[..|qs| - 1]);
      var r := Finish(e, net, qs[|qs| - 1], st.hint);
      if r.Some? {
        JoinKeepsHead(e, net, st, r.value);
      }
    }
  }

  lemma ListFinishMore(e: Env, net: nat, qs: seq<Packet>, h: Packet)
    ensures ListFinish(e, net, qs + [h]) == ListFinish(e, net, qs) + ToSeq(Finish(e, net, h, InnerRun(e, net, qs).hint))
  {
    assert (qs + [h])[..|qs|] == qs;
    InnerLoopBatches(e, net, qs);
    InnerLoopBatches(e, net, qs + [h]);
  }

  lemma SublistMore(e: Env, ps: seq<Packet>, c: Packet, dev: nat, net: nat)
    ensures
      var qs, h := HookList(e, ps, dev, net), e.hook(c, dev, net);
      SublistRcv(e, ps + [c], dev, net) ==
        SublistRcv(e, ps, dev, net) +
        if h.Some? then ToSeq(Finish(e, net, h.value, InnerRun(e, net, qs).hint)) else []
  {
    assert (ps + [c])[..|ps|] == ps;
    var qs, h := HookList(e, ps, dev, net), e.hook(c, dev, net);
    if h.Some? {
      ListFinishMore(e, net, qs, h.value);
    } else {
      assert qs + [] == qs;
    }
  }

  lemma BatchesMore(e: Env, bs: seq<Batch>, b: Batch)
    ensures DeliverBatches(e, bs + [b]) == DeliverBatches(e, bs) + DeliverBatch(e, b)
  {
    assert (bs + [b])[..|bs|] == bs;
  }

  /** What one packet adds to the deliveries of a list. */
  function Adds(e: Env, ps: seq<Packet>, p: Packet): seq<Packet> {
    var h := Hooked(e, p);
    if h == None then [] else ToSeq(Finish(e, e.netOf(p.dev), h.value, HintBehind(e, ps, p.dev)))
  }

  lemma LongerBatchAdds(e: Env, done: seq<Batch>, b: Batch, c: Packet)
    ensures
      var h := e.hook(c, b.dev, b.net);
      var hint := InnerRun(e, b.net, HookList(e, b.packets, b.dev, b.net)).hint;
      DeliverBatches(e, done + [b.(packets := b.packets + [c])]) ==
        DeliverBatches(e, done + [b]) + if h.Some? then ToSeq(Finish(e, b.net, h.value, hint)) else []
  {
    BatchesMore(e, done, b);
    BatchesMore(e, done, b.(packets := b.packets + [c]));
    SublistMore(e, b.packets, c, b.dev, b.net);
    var h := e.hook(c, b.dev, b.net);
    var hint := InnerRun(e, b.net, HookList(e, b.packets, b.dev, b.net)).hint;
    Assoc(DeliverBatches(e, done), DeliverBatch(e, b), if h.Some? then ToSeq(Finish(e, b.net, h.value, hint)) else []);
  }

  lemma NewBatchAdds(e: Env, bs: seq<Batch>, dev: nat, net: nat, c: Packet)
    ensures
      var h := e.hook(c, dev, net);
      DeliverBatches(e, bs + [Batch(dev, net, [c])]) ==
        DeliverBatches(e, bs) + if h.Some? then ToSeq(Finish(e, net, h.value, None)) else []
  {
    BatchesMore(e, bs, Batch(dev, net, [c]));
    SublistMore(e, [], c, dev, net);
    assert [] + [c] == [c];
    assert SublistRcv(e, [], dev, net) == [];
  }

  lemma JoinAdds(e: Env, ps: seq<Packet>, p: Packet, c: Packet)
    requires e.check(p, e.netOf(p.dev)) == Some(c)
    ensures
      var net := e.netOf(p.dev);
      DeliverBatches(e, Batches(JoinBatch(OuterRun(e, ps), p.dev, net, c))) == ListRcv(e, ps) + Adds(e, ps, p)
  {
    var st, dev, net := OuterRun(e, ps), p.dev, e.netOf(p.dev);
    if st.curr.Some? && st.curr.value.dev == dev && st.curr.value.net == net {
      var b := st.curr.value;
      assert Batches(JoinBatch(st, dev, net, c)) == st.done + [b.(packets := b.packets + [c])];
      LongerBatchAdds(e, st.done, b, c);
    } else {
      assert Batches(JoinBatch(st, dev, net, c)) == Batches(st) + [Batch(dev, net, [c])];
      NewBatchAdds(e, Batches(st), dev, net, c);
    }
  }

  lemma ListRcvMore(e: Env, ps: seq<Packet>, p: Packet)
    ensures ListRcv(e, ps + [p]) == ListRcv(e, ps) + Adds(e, ps, p)
  {
    assert (ps + [p])[..|ps|] == ps;
    var c := e.check(p, e.netOf(p.dev));
    if c.Some? {
      JoinAdds(e, ps, p, c.value);
    }
  }

  /**
  List receive delivers, for each further packet, at most one more, and `r` exactly if `r` is what the
  packet, judged with the hint behind the earlier ones, is delivered as.
  */
  lemma ListRcvDeliversIff(e: Env, ps: seq<Packet>, p: Packet) returns (more: seq<Packet>)
    ensures ListRcv(e, ps + [p]) == ListRcv(e, ps) + more && |more| <= 1
    ensures
      var net := e.netOf(p.dev);
      forall r :: more == [r] <==>
        exists c, h ::
          && e.check(p, net) == Some(c) && e.hook(c, p.dev, net) == Some(h)
          && IsDeliveredAs(e, net, h, HintBehind(e, ps, p.dev), r)
  {
    ListRcvMore(e, ps, p);
    more := Adds(e, ps, p);
    var net, hint := e.netOf(p.dev), HintBehind(e, ps, p.dev);
    forall r
      ensures
        more == [r] <==>
        exists c, h ::
          e.check(p, net) == Some(c) && e.hook(c, p.dev, net) == Some(h) && IsDeliveredAs(e, net, h, hint, r)
    {
      if Hooked(e, p).Some? {
        FinishIff(e, net, Hooked(e, p).value, hint, r);
        OneElement(Finish(e, net, Hooked(e, p).value, hint), r);
      }
    }
  }

  /** `r` obeys the rule on link-layer broadcasts of the device of one of these packets. */
  ghost predicate ObeysLinkRuleOfOne(e: Env, ps: seq<Packet>, r: Packet) {
    exists p :: p in ps && Hooked(e, p).Some? && ObeysLinkRule(e, r, Hooked(e, p).value.dev)
  }

  lemma {:induction false} ListObeysLinkRule(e: Env, ps: seq<Packet>, r: Packet)
    requires r in ListRcv(e, ps)
    ensures ObeysLinkRuleOfOne(e, ps, r)
  {
    var before, p := ps[..|ps| - 1], ps[|ps| - 1];
    assert ps == before + [p];
    ListRcvMore(e, before, p);
    if r in ListRcv(e, before) {
      ListObeysLinkRule(e, before, r);
    } else {
      JudgedObeysLinkRule(e, p, HintBehind(e, before, p.dev), r);
    }
  }

  lemma {:induction false} EachObeysLinkRule(e: Env, ps: seq<Packet>, r: Packet)
    requires r in RcvEach(e, ps)
    ensures ObeysLinkRuleOfOne(e, ps, r)
  {
    var before, p := ps[..|ps| - 1], ps[|ps| - 1];
    if r in RcvEach(e, before) {
      EachObeysLinkRule(e, before, r);
    } else {
      JudgedObeysLinkRule(e, p, None, r);
    }
  }

  /** Whatever either way of receiving delivers obeys the rule on link-layer broadcasts of its device. */
  lemma DeliveriesObeyLinkRule(e: Env, ps: seq<Packet>, r: Packet)
    requires r in ListRcv(e, ps) || r in RcvEach(e, ps)
    ensures exists p :: p in ps && Hooked(e, p).Some? && ObeysLinkRule(e, r, Hooked(e, p).value.dev)
  {
    if r in ListRcv(e, ps) {
      ListObeysLinkRule(e, ps, r);
    } else {
      EachObeysLinkRule(e, ps, r);
    }
  }

  lemma JudgedObeysLinkRule(e: Env, p: Packet, hint: Option<Packet>, r: Packet)
    requires Hooked(e, p).Some? && Finish(e, e.netOf(p.dev), Hooked(e, p).value, hint) == Some(r)
    ensures ObeysLinkRule(e, r, Hooked(e, p).value.dev)
  {
    FinishIff(e, e.netOf(p.dev), Hooked(e, p).value, hint, r);
  }

  // List receive against single receive when the lookups find the same routes

  /** A packet without regard to the attached socket. */
  function Forget(p: Packet): Packet {
    p.(hasSock := false)
  }

  function ForgetIn(p: Option<Packet>): Option<Packet> {
    if p.Some? then Some(Forget(p.value)) else None
  }

  function ForgetAll(ps: seq<Packet>): seq<Packet> {
    seq(|ps|, i requires 0 <= i < |ps| => Forget(ps[i]))
  }

  /** A hint that packets of device `dev` can leave behind: up to the socket, one of them as received alone. */
  ghost predicate IsPassedOn(e: Env, dev: nat, h: Packet) {
    var net := e.netOf(dev);
    && h.dst.Some? && ExtractHint(e, net, h) == Some(h)
    && exists q :: HookedFrom(e, dev, q) && ForgetIn(Finish(e, net, q, None)) == Some(Forget(h))
  }

  /** `q` is a packet of device `dev` at the time its route is looked up, for device `inDev`. */
  ghost predicate IsLookedUp(e: Env, dev: nat, inDev: nat, q: Packet) {
    q.dst == None && exists p :: HookedFrom(e, dev, p) && p.dev == inDev && e.l3mdev(p) == Some(q)
  }

  /** The route in full does not depend on a route or a socket the packet already has. */
  ghost predicate RouteIsOfPacket(e: Env) {
    forall p: Packet, dev: nat, dst: Option<Dst>, hasSock: bool ::
      e.route(p.(dst := dst, hasSock := hasSock), dev) == e.route(p, dev)
  }

  /** A hint that is left behind leads every packet that may use it to its own route in full. */
  ghost predicate HintsFindRoute(e: Env) {
    forall dev: nat, inDev: nat, p: Packet, h: Packet ::
      IsLookedUp(e, dev, inDev, p) && IsPassedOn(e, dev, h) && CanUseHint(p, Some(h)) ==>
        e.useHint(p, inDev, h) == e.route(p, inDev)
  }

  /** Early demux adds a socket, the route in full, or both; it fails only where there is no route. */
  ghost predicate DemuxFindsRoute(e: Env) {
    forall dev: nat, inDev: nat, p: Packet :: IsLookedUp(e, dev, inDev, p) && e.demuxOn(e.netOf(dev)) ==>
      match e.demux(p, inDev)
      case None => e.route(p, inDev) == None
      case Some(q) => q == p.(dst := q.dst, hasSock := q.hasSock) && (q.dst.Some? ==> q.dst == e.route(p, inDev))
  }

  /** The three ways to look a route up find the same one. */
  ghost predicate SameRoutes(e: Env) {
    RouteIsOfPacket(e) && HintsFindRoute(e) && DemuxFindsRoute(e)
  }

  ghost predicate OptionsIgnoreSocket(e: Env) {
    forall p: Packet, dev: nat :: ForgetIn(e.options(p, dev)) == ForgetIn(e.options(Forget(p), dev))
  }

  /** The packet with the route in full, without regard to the socket. */
  function InFull(e: Env, p: Packet, dev: nat): Option<Packet> {
    var found := e.route(p, dev);
    if found == None then None else Some(Forget(p).(dst := found))
  }

  lemma FoundByHint(e: Env, net: nat, p: Packet, dev: nat, h: Packet)
    requires RouteIsOfPacket(e) && CanUseHint(p, Some(h)) && e.useHint(p, dev, h) == e.route(p, dev)
    ensures ForgetIn(FindRoute(e, net, p, dev, Some(h))) == InFull(e, p, dev)
  {
    assert e.route(p.(dst := e.route(p, dev), hasSock := p.hasSock), dev) == e.route(p, dev);
  }

  lemma FoundByDemux(e: Env, dev: nat, inDev: nat, p: Packet)
    requires RouteIsOfPacket(e) && DemuxFindsRoute(e) && IsLookedUp(e, dev, inDev, p)
    ensures ForgetIn(FindRoute(e, e.netOf(dev), p, inDev, None)) == InFull(e, p, inDev)
  {
    var q := e.demux(p, inDev);
    if e.demuxOn(e.netOf(dev)) && q.Some? {
      assert q.value == p.(dst := q.value.dst, hasSock := q.value.hasSock);
    }
  }

  /** Whichever lookup is used, the packet gets the route in full. */
  lemma RouteFound(e: Env, dev: nat, inDev: nat, p: Packet, hint: Option<Packet>)
    requires SameRoutes(e) && IsLookedUp(e, dev, inDev, p) && (hint.Some? ==> IsPassedOn(e, dev, hint.value))
    ensures ForgetIn(FindRoute(e, e.netOf(dev), p, inDev, hint)) == InFull(e, p, inDev)
  {
    if CanUseHint(p, hint) {
      FoundByHint(e, e.netOf(dev), p, inDev, hint.value);
    } else {
      FoundByDemux(e, dev, inDev, p);
    }
  }

  lemma AcceptIgnoresSocket(e: Env, p: Packet, dev: nat)
    requires OptionsIgnoreSocket(e) && p.dst.Some?
    ensures ForgetIn(Accept(e, p, dev)) == ForgetIn(Accept(e, Forget(p), dev))
  {
    assert ForgetIn(e.options(p, dev)) == ForgetIn(e.options(Forget(p), dev));
  }

  /** The two lookups of one packet, with and without the hint, agree up to the socket. */
  lemma SameRouteWithHint(e: Env, dev: nat, p: Packet, q: Packet, hint: Option<Packet>)
    requires SameRoutes(e) && HookedFrom(e, dev, p) && e.l3mdev(p) == Some(q)
    requires hint.Some? ==> IsPassedOn(e, dev, hint.value)
    ensures
      var net := e.netOf(dev);
      ForgetIn(FindRoute(e, net, q, p.dev, hint)) == ForgetIn(FindRoute(e, net, q, p.dev, None))
  {
    if q.dst == None {
      assert IsLookedUp(e, dev, p.dev, q);
      RouteFound(e, dev, p.dev, q, hint);
      RouteFound(e, dev, p.dev, q, None);
    }
  }

  /** Up to the socket, a packet fares the same with and without a hint. */
  lemma FinishUpToSocket(e: Env, dev: nat, p: Packet, hint: Option<Packet>)
    requires SameRoutes(e) && OptionsIgnoreSocket(e) && HookedFrom(e, dev, p)
    requires hint.Some? ==> IsPassedOn(e, dev, hint.value)
    ensures var net := e.netOf(dev); ForgetIn(Finish(e, net, p, hint)) == ForgetIn(Finish(e, net, p, None))
  {
    var net, q := e.netOf(dev), e.l3mdev(p);
    if q.Some? {
      SameRouteWithHint(e, dev, p, q.value, hint);
      var a := FindRoute(e, net, q.value, p.dev, hint);
      var b := FindRoute(e, net, q.value, p.dev, None);
      if a.Some? && a.value.dst.Some? {
        assert Forget(a.value) == Forget(b.value);
        AcceptIgnoresSocket(e, a.value, p.dev);
        AcceptIgnoresSocket(e, b.value, p.dev);
      }
    }
  }

  lemma ForgetConcat(a: seq<Packet>, b: seq<Packet>)
    ensures ForgetAll(a + b) == ForgetAll(a) + ForgetAll(b)
  {
  }

  lemma ForgetToSeq(a: Option<Packet>, b: Option<Packet>)
    requires ForgetIn(a) == ForgetIn(b)
    ensures ForgetAll(ToSeq(a)) == ForgetAll(ToSeq(b))
  {
  }

  /** A round of the inner loop keeps the hint, drops it, or leaves the packet just judged behind. */
  lemma NextHint(e: Env, dev: nat, st: Inner, q: Packet)
    requires HookedFrom(e, dev, q)
    requires ForgetIn(Finish(e, e.netOf(dev), q, st.hint)) == ForgetIn(Finish(e, e.netOf(dev), q, None))
    requires st.hint.Some? ==> IsPassedOn(e, dev, st.hint.value)
    ensures
      var hint := InnerStep(e, e.netOf(dev), st, q).hint;
      hint.Some? ==> IsPassedOn(e, dev, hint.value)
  {
  }

  /** Up to sockets, the inner loop delivers what its packets deliver one by one. */
  lemma {:induction false} InnerLoopUpToSocket(e: Env, dev: nat, qs: seq<Packet>)
    requires SameRoutes(e) && OptionsIgnoreSocket(e) && forall q :: q in qs ==> HookedFrom(e, dev, q)
    ensures var net := e.netOf(dev); ForgetAll(Kept(e, net, qs)) == ForgetAll(FinishEach(e, net, qs))
    ensures var hint := InnerRun(e, e.netOf(dev), qs).hint; hint.Some? ==> IsPassedOn(e, dev, hint.value)
  {
    if qs != [] {
      var net, before, q := e.netOf(dev), qs[..|qs| - 1], qs[|qs| - 1];
      InnerLoopUpToSocket(e, dev, before);
      var st := InnerRun(e, net, before);
      assert HookedFrom(e, dev, q);
      FinishUpToSocket(e, dev, q, st.hint);
      NextHint(e, dev, st, q);
      ForgetToSeq(Finish(e, net, q, st.hint), Finish(e, net, q, None));
      ForgetConcat(Kept(e, net, before), ToSeq(Finish(e, net, q, st.hint)));
      ForgetConcat(FinishEach(e, net, before), ToSeq(Finish(e, net, q, None)));
    }
  }

  lemma {:induction false} BatchesUpToSocket(e: Env, bs: seq<Batch>)
    requires SameRoutes(e) && OptionsIgnoreSocket(e) && forall i :: 0 <= i < |bs| ==> BatchOk(e, bs[i])
    ensures ForgetAll(DeliverBatches(e, bs)) == ForgetAll(DirectAll(e, bs))
  {
    if bs != [] {
      var before, b := bs[..|bs| - 1], bs[|bs| - 1];
      BatchesUpToSocket(e, before);
      assert BatchOk(e, b);
      HookListComesFrom(e, b.dev, b.packets);
      var qs := HookList(e, b.packets, b.dev, b.net);
      InnerLoopBatches(e, b.net, qs);
      InnerLoopUpToSocket(e, b.dev, qs);
      ForgetConcat(DeliverBatches(e, before), DeliverBatch(e, b));
      ForgetConcat(DirectAll(e, before), Direct(e, b));
    }
  }

  /**
  If the three lookups find the same routes, receiving a list delivers, for every list, the same
  packets with the same routes in the same order as receiving them one by one. Only the sockets
  that early demux attaches may differ.
  */
  lemma ListReceiveUpToSocket(e: Env, ps: seq<Packet>)
    requires SameRoutes(e) && OptionsIgnoreSocket(e)
    ensures ForgetAll(ListRcv(e, ps)) == ForgetAll(RcvEach(e, ps))
  {
    OuterLoopBatches(e, ps);
    BatchesUpToSocket(e, Batches(OuterRun(e, ps)));
    DirectIsRcvEach(e, ps);
  }

  /** Early demux leaves the socket alone. */
  ghost predicate DemuxKeepsSocket(e: Env) {
    forall p: Packet, dev: nat :: p.dst == None && e.demux(p, dev).Some? ==> e.demux(p, dev).value.hasSock == p.hasSock
  }

  lemma FindRouteKeepsSocket(e: Env, net: nat, p: Packet, dev: nat, hint: Option<Packet>)
    requires DemuxKeepsSocket(e) && FindRoute(e, net, p, dev, hint).Some?
    ensures FindRoute(e, net, p, dev, hint).value.hasSock == p.hasSock
  {
  }

  lemma FinishIgnoresHint(e: Env, dev: nat, p: Packet, hint: Option<Packet>)
    requires SameRoutes(e) && DemuxKeepsSocket(e) && HookedFrom(e, dev, p)
    requires hint.Some? ==> IsPassedOn(e, dev, hint.value)
    ensures Finish(e, e.netOf(dev), p, hint) == Finish(e, e.netOf(dev), p, None)
  {
    var net, q := e.netOf(dev), e.l3mdev(p);
    if q.Some? {
      SameRouteWithHint(e, dev, p, q.value, hint);
      var a := FindRoute(e, net, q.value, p.dev, hint);
      var b := FindRoute(e, net, q.value, p.dev, None);
      if a.Some? {
        FindRouteKeepsSocket(e, net, q.value, p.dev, hint);
        FindRouteKeepsSocket(e, net, q.value, p.dev, None);
        assert Forget(a.value) == Forget(b.value);
      }
      assert a == b;
    }
  }

  /** If early demux attaches no sockets either, nothing differs at all. */
  lemma SameRoutesWithoutSockets(e: Env)
    requires SameRoutes(e) && DemuxKeepsSocket(e)
    ensures HintsAgree(e)
  {
    forall h: Packet, p: Packet
      ensures HintAgrees(e, h, p)
    {
      var net := e.netOf(h.dev);
      if h.dev == p.dev && Hooked(e, h).Some? && Hooked(e, p).Some? {
        assert HookedFrom(e, h.dev, Hooked(e, h).value) && HookedFrom(e, h.dev, Hooked(e, p).value);
        var r := Finish(e, net, Hooked(e, h).value, None);
        if r.Some? {
          FinishIgnoresHint(e, h.dev, Hooked(e, p).value, ExtractHint(e, net, r.value));
        }
      }
    }
  }

  // An ordinary environment

  /**
  Packets come in without a route and are routed by destination address; a hint hands on its own
  route; early demux attaches a socket to whatever it sees and leaves the route to the full lookup.
  */
  function ByAddress(): Env {
    Env(dev => 0, (p: Packet, net) => Some(p.(dst := None)), (p, dev, net) => Some(p), p => Some(p), net => false,
        (p: Packet, dev, h: Packet) => h.dst, net => true, (p: Packet, dev) => Some(p.(hasSock := true)),
        (p: Packet, dev) => Some(Dst(p.daddr, Unicast, false)), (p, dev) => Some(p), dev => false)
  }

  /** What is left of a packet of this environment received alone has the route of its address. */
  lemma RoutedByAddress(q: Packet, dev: nat)
    requires HookedFrom(ByAddress(), dev, q)
    ensures
      var r := Finish(ByAddress(), 0, q, None);
      && q.dst == None
      && r.Some? && r.value.dst == Some(Dst(q.daddr, Unicast, false)) && r.value.daddr == q.daddr
  {
  }

  lemma ByAddressFindsSameRoutes()
    ensures SameRoutes(ByAddress()) && OptionsIgnoreSocket(ByAddress())
  {
    var e := ByAddress();
    forall dev: nat, inDev: nat, p: Packet, h: Packet
      | IsLookedUp(e, dev, inDev, p) && IsPassedOn(e, dev, h) && CanUseHint(p, Some(h))
      ensures e.useHint(p, inDev, h) == e.route(p, inDev)
    {
      var q :| HookedFrom(e, dev, q) && ForgetIn(Finish(e, 0, q, None)) == Some(Forget(h));
      RoutedByAddress(q, dev);
      assert Forget(h).dst == h.dst && Forget(h).daddr == h.daddr;
    }
  }

  lemma FindRouteByAddress(p: Packet, h: Packet)
    requires p.dst == None && !p.hasSock && !p.fragment && CanUseHint(p, Some(h))
    requires h.dst == Some(Dst(p.daddr, Unicast, false))
    ensures FindRoute(ByAddress(), 0, p, p.dev, None) == Some(p.(dst := h.dst, hasSock := true))
    ensures FindRoute(ByAddress(), 0, p, p.dev, Some(h)) == Some(p.(dst := h.dst))
  {
  }

  /**
  In an environment whose lookups find the same routes, whose hints hand on their route and whose
  early demux attaches sockets, both of two equal packets are delivered either way, but the second
  one gets its socket only when received alone.
  */
  lemma SocketsCanDiffer() returns (e: Env, p: Packet)
    ensures SameRoutes(e) && OptionsIgnoreSocket(e)
    ensures forall q: Packet, dev: nat, h: Packet :: e.useHint(q, dev, h) == h.dst
    ensures |ListRcv(e, [p, p])| == |RcvEach(e, [p, p])| == 2
    ensures ListRcv(e, [p, p]) != RcvEach(e, [p, p]) && !HintsAgree(e)
  {
    e := ByAddress();
    ByAddressFindsSameRoutes();
    p := Packet(0, 1, 2, 0, 5, false, false, None, false, 0);
    var first := p.(dst := Some(Dst(1, Unicast, false)), hasSock := true);
    FindRouteByAddress(p, first);
    assert Finish(e, 0, p, None) == Some(first);
    assert Finish(e, 0, p, Some(first)) == Some(p.(dst := first.dst));
    assert Hooked(e, p) == Some(p);
    PairDelivery(e, p, p);
    assert ListRcv(e, [p, p])[1] != RcvEach(e, [p, p])[1];
    assert !HintAgrees(e, p, p);
  }
}
