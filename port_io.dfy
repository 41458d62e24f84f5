/**
 * x86 port output as an observable trace: each `out` of one byte to a
 * 16-bit port number is appended to `trace`. The hardware's reaction is
 * not modelled.
 */
module PortIo {

  datatype PortWrite = PortWrite(port: bv16, data: bv8)

  /** Rust's `as u8` on a 32-bit value: keeps the low eight bits. */
  function TruncateToU8(x: bv32): (b: bv8)
    ensures b as bv32 == x % 0x100
  {
    (x & 0xFF) as bv8
  }

  /** The writes of `t` whose port is in `ports`, in order. */
  function WritesTo(t: seq<PortWrite>, ports: set<bv16>): (r: seq<PortWrite>)
    ensures |r| <= |t|
    ensures forall i :: 0 <= i < |r| ==> r[i].port in ports
  {
    if t == [] then []
    else if t[0].port in ports then [t[0]] + WritesTo(t[1..], ports)
    else WritesTo(t[1..], ports)
  }

  /** Filtering a trace two writes at a time. */
  lemma WritesToPair(x: PortWrite, y: PortWrite, rest: seq<PortWrite>, ports: set<bv16>)
    ensures WritesTo([x, y] + rest, ports) ==
      (if x.port in ports then [x] else []) + (if y.port in ports then [y] else []) + WritesTo(rest, ports)
  {
    assert ([x, y] + rest)[1..] == [y] + rest;
    assert ([y] + rest)[1..] == rest;
  }

  /** `xs` and `ys` written alternately, `xs[0]` first. */
  function Interleave(xs: seq<PortWrite>, ys: seq<PortWrite>): (t: seq<PortWrite>)
    requires |xs| == |ys|
    ensures |t| == 2 * |xs|
  {
    if xs == [] then [] else [xs[0], ys[0]] + Interleave(xs[1..], ys[1..])
  }

  /** Of two interleaved traces, only the first writes to `ports`: filtering recovers it. */
  lemma {:induction false} InterleaveFilterFirst(xs: seq<PortWrite>, ys: seq<PortWrite>, ports: set<bv16>)
    requires |xs| == |ys|
    requires forall i :: 0 <= i < |xs| ==> xs[i].port in ports && ys[i].port !in ports
    ensures WritesTo(Interleave(xs, ys), ports) == xs
  {
    if xs != [] {
      InterleaveFilterFirst(xs[1..], ys[1..], ports);
      WritesToPair(xs[0], ys[0], Interleave(xs[1..], ys[1..]), ports);
      assert xs == [xs[0]] + xs[1..];
    }
  }

  /** Of two interleaved traces, only the second writes to `ports`: filtering recovers it. */
  lemma {:induction false} InterleaveFilterSecond(xs: seq<PortWrite>, ys: seq<PortWrite>, ports: set<bv16>)
    requires |xs| == |ys|
    requires forall i :: 0 <= i < |xs| ==> xs[i].port !in ports && ys[i].port in ports
    ensures WritesTo(Interleave(xs, ys), ports) == ys
  {
    if xs != [] {
      InterleaveFilterSecond(xs[1..], ys[1..], ports);
      WritesToPair(xs[0], ys[0], Interleave(xs[1..], ys[1..]), ports);
      assert ys == [ys[0]] + ys[1..];
    }
  }

  /** The ports a trace writes to. */
  function PortsOf(t: seq<PortWrite>): (ports: set<bv16>)
    ensures forall i :: 0 <= i < |t| ==> t[i].port in ports
    ensures forall p :: p in ports ==> exists i :: 0 <= i < |t| && t[i].port == p
  {
    set i | 0 <= i < |t| :: t[i].port
  }

  /** The ports of two traces one after the other are the ports of either. */
  lemma PortsOfConcat(a: seq<PortWrite>, b: seq<PortWrite>)
    ensures PortsOf(a + b) == PortsOf(a) + PortsOf(b)
  {
    var t := a + b;
    forall p | p in PortsOf(a)
      ensures p in PortsOf(t)
    {
      var i :| 0 <= i < |a| && a[i].port == p;
      assert t[i] == a[i];
    }
    forall p | p in PortsOf(b)
      ensures p in PortsOf(t)
    {
      var j :| 0 <= j < |b| && b[j].port == p;
      assert t[|a| + j] == b[j];
    }
    forall p | p in PortsOf(t)
      ensures p in PortsOf(a) + PortsOf(b)
    {
      var i :| 0 <= i < |t| && t[i].port == p;
      if i >= |a| {
        assert b[i - |a|] == t[i];
      }
    }
  }

  class Bus {
    var trace: seq<PortWrite>

    constructor ()
      ensures trace == []
    {
      trace := [];
    }

    /** One `out dx, al`. */
    method WriteByte(port: bv16, data: bv8)
      modifies this
      ensures trace == old(trace) + [PortWrite(port, data)]
    {
      trace := trace + [PortWrite(port, data)];
    }
  }
}
