/**
  The host-side SPI simulator of src/host/hardware_spi/spi.c: simulated
  devices register transaction handlers on `spi0`, and a blocking
  transfer offers the whole transfer to the handlers, newest first, until
  one claims it by returning a non-zero value.

  A handler is opaque C code with its own state: the model names it by an
  identifier (the handler function and its `userdata`) and gives its
  answer as a function of the transfers made so far and of the call's
  arguments. Every call is recorded, with what it returned, in `log`.
*/
module Spi {
  import opened Common

  /** One call of a handler: its arguments, whether it was given a receive buffer, and its return value. */
  datatype Transfer = Transfer(handler: nat, tx: seq<byte>, hasRx: bool, len: nat, ret: int)

  /** What a handler returns, and what its receive buffer holds afterwards. */
  datatype Reply = Reply(ret: int, rx: seq<byte>)

  /** A registered `spi_transaction_handler_t` with its `userdata`. */
  datatype SpiHandler = SpiHandler(id: nat, transfer: (seq<Transfer>, seq<byte>, Option<seq<byte>>, nat) -> Reply)

  /** The calls a transfer made, its result, and the receive buffer afterwards (`None` for a NULL buffer). */
  datatype Outcome = Outcome(calls: seq<Transfer>, result: int, rx: Option<seq<byte>>)

  /**
    The handler walk of the blocking transfers, from the `k`-th handler
    on: each handler is called in turn with the same arguments; the first
    one whose return value, stored into a `size_t`, is non-zero claims the
    transfer and its value is returned; -1 when nobody claims it. (A
    negative return becomes a huge `size_t`, so it claims too.)
  */
  function Chain(hs: seq<SpiHandler>, history: seq<Transfer>, tx: seq<byte>, rx: Option<seq<byte>>, len: nat, k: nat): Outcome
    requires k <= |hs|
    decreases |hs| - k
  {
    if k == |hs| then Outcome([], -1, rx)
    else
      var rep := hs[k].transfer(history, tx, rx, len);
      var call := Transfer(hs[k].id, tx, rx.Some?, len, rep.ret);
      var rx' := if rx.Some? then Some(rep.rx) else None;
      if rep.ret != 0 then Outcome([call], rep.ret, rx')
      else
        var rest := Chain(hs, history + [call], tx, rx', len, k + 1);
        Outcome([call] + rest.calls, rest.result, rest.rx)
  }

  /**
    The handlers are offered the transfer in list order, each with the
    same buffer, receive-buffer presence and length; every handler called
    before the last one declined (returned 0); the walk stops early only
    at a handler that claimed; the result is the claiming handler's return
    value, and -1 when every handler declined. The result is never 0.
  */
  lemma {:induction false} ChainSpec(hs: seq<SpiHandler>, history: seq<Transfer>, tx: seq<byte>, rx: Option<seq<byte>>, len: nat, k: nat)
    requires k <= |hs|
    ensures var o := Chain(hs, history, tx, rx, len, k);
      && |o.calls| <= |hs| - k
      && (forall j :: 0 <= j < |o.calls| ==>
            o.calls[j].handler == hs[k + j].id && o.calls[j].tx == tx && o.calls[j].hasRx == rx.Some? && o.calls[j].len == len)
      && (forall j :: 0 <= j < |o.calls| - 1 ==> o.calls[j].ret == 0)
      && (|o.calls| < |hs| - k ==> |o.calls| > 0 && o.calls[|o.calls| - 1].ret != 0)
      && (|o.calls| > 0 && o.calls[|o.calls| - 1].ret != 0 ==> o.result == o.calls[|o.calls| - 1].ret)
      && ((forall j :: 0 <= j < |o.calls| ==> o.calls[j].ret == 0) ==> o.result == -1 && |o.calls| == |hs| - k)
      && o.result != 0
      && o.rx.Some? == rx.Some?
    decreases |hs| - k
  {
    if k < |hs| {
      var rep := hs[k].transfer(history, tx, rx, len);
      var call := Transfer(hs[k].id, tx, rx.Some?, len, rep.ret);
      var rx' := if rx.Some? then Some(rep.rx) else None;
      if rep.ret == 0 {
        ChainSpec(hs, history + [call], tx, rx', len, k + 1);
        var rest := Chain(hs, history + [call], tx, rx', len, k + 1);
        var o := Chain(hs, history, tx, rx, len, k);
        assert o == Outcome([call] + rest.calls, rest.result, rest.rx);
        assert |o.calls| == 1 + |rest.calls| && o.calls[0] == call;
        forall j | 1 <= j < |o.calls|
          ensures o.calls[j] == rest.calls[j - 1]
        {
        }
      }
    }
  }

  /** One turn of the handler walk: the `i`-th handler either claims the transfer or passes it on. */
  lemma ChainStep(hs: seq<SpiHandler>, h0: seq<Transfer>, rx0: Option<seq<byte>>, calls: seq<Transfer>,
                  history: seq<Transfer>, tx: seq<byte>, cur: Option<seq<byte>>, len: nat, i: nat)
    requires i < |hs|
    requires var o := Chain(hs, history, tx, cur, len, i);
      Chain(hs, h0, tx, rx0, len, 0) == Outcome(calls + o.calls, o.result, o.rx)
    ensures var rep := hs[i].transfer(history, tx, cur, len);
      var call := Transfer(hs[i].id, tx, cur.Some?, len, rep.ret);
      var cur' := if cur.Some? then Some(rep.rx) else None;
      && (rep.ret != 0 ==> Chain(hs, h0, tx, rx0, len, 0) == Outcome(calls + [call], rep.ret, cur'))
      && (rep.ret == 0 ==>
            var o := Chain(hs, history + [call], tx, cur', len, i + 1);
            Chain(hs, h0, tx, rx0, len, 0) == Outcome((calls + [call]) + o.calls, o.result, o.rx))
  {
    var rep := hs[i].transfer(history, tx, cur, len);
    var call := Transfer(hs[i].id, tx, cur.Some?, len, rep.ret);
    var cur' := if cur.Some? then Some(rep.rx) else None;
    if rep.ret == 0 {
      var o := Chain(hs, history + [call], tx, cur', len, i + 1);
      AppendAssoc(calls, [call], o.calls);
    }
  }

  /** The transmit buffer of `spi_read_blocking`: `len` copies of `repeated_tx_data`. */
  function Repeated(b: byte, len: nat): (s: seq<byte>)
    ensures |s| == len && forall j :: 0 <= j < len ==> s[j] == b
  {
    seq(len, _ => b)
  }

  /** `spi_init`, `spi_set_baudrate`, `spi_get_baudrate`, `spi_is_writable`, `spi_is_readable`, `spi_is_busy`. */
  function InitResult(baudrate: nat): nat { baudrate }
  function SetBaudrateResult(baudrate: nat): nat { baudrate }
  function GetBaudrate(): nat { 0 }
  predicate IsWritable() { true }
  predicate IsReadable() { true }
  predicate IsBusy() { false }

  /** The simulator's stubs: the requested baudrate is handed back, the current one reads 0, and the bus is always ready. */
  lemma StubResults(baudrate: nat)
    ensures InitResult(baudrate) == baudrate && SetBaudrateResult(baudrate) == baudrate && GetBaudrate() == 0
    ensures IsWritable() && IsReadable() && !IsBusy()
  {
  }

  /** `spi0`: its handler list (newest first) and the calls made so far. */
  class SpiBus {
    var handlers: seq<SpiHandler>
    var log: seq<Transfer>

    constructor ()
      ensures handlers == [] && log == []
    {
      handlers := [];
      log := [];
    }

    /** `spi_register_transaction_handler`: the new handler goes to the head of the list. */
    method RegisterHandler(h: SpiHandler)
      modifies this`handlers
      ensures handlers == [h] + old(handlers)
    {
      handlers := [h] + handlers;
    }

    /** The `for` loop over the handler list that all three blocking transfers share. */
    method Offer(tx: seq<byte>, rx: Option<seq<byte>>, len: nat) returns (r: int, rxOut: Option<seq<byte>>)
      modifies this`log
      ensures var o := Chain(handlers, old(log), tx, rx, len, 0);
        log == old(log) + o.calls && r == o.result && rxOut == o.rx
    {
      ghost var calls: seq<Transfer> := [];
      var cur := rx;
      var i := 0;
      while i < |handlers|
        invariant 0 <= i <= |handlers|
        invariant log == old(log) + calls
        invariant var o := Chain(handlers, log, tx, cur, len, i);
          Chain(handlers, old(log), tx, rx, len, 0) == Outcome(calls + o.calls, o.result, o.rx)
      {
        ChainStep(handlers, old(log), rx, calls, log, tx, cur, len, i);
        var rep := handlers[i].transfer(log, tx, cur, len);
        var call := Transfer(handlers[i].id, tx, cur.Some?, len, rep.ret);
        AppendAssoc(old(log), calls, [call]);
        log := log + [call];
        calls := calls + [call];
        if cur.Some? {
          cur := Some(rep.rx);
        }
        if rep.ret != 0 {
          r, rxOut := rep.ret, cur;
          return;
        }
        i := i + 1;
      }
      r, rxOut := -1, cur;
    }

    /** `spi_write_read_blocking`: the receive buffer `dst` is offered along with `src`. */
    method WriteReadBlocking(src: seq<byte>, dst: seq<byte>, len: nat) returns (r: int, dstOut: seq<byte>)
      requires |src| == len && |dst| == len
      modifies this`log
      ensures var o := Chain(handlers, old(log), src, Some(dst), len, 0);
        log == old(log) + o.calls && r == o.result && Some(dstOut) == o.rx
    {
      ChainSpec(handlers, log, src, Some(dst), len, 0);
      var rx;
      r, rx := Offer(src, Some(dst), len);
      dstOut := rx.value;
    }

    /** `spi_write_blocking`: no receive buffer (NULL). */
    method WriteBlocking(src: seq<byte>, len: nat) returns (r: int)
      requires |src| == len
      modifies this`log
      ensures var o := Chain(handlers, old(log), src, None, len, 0);
        log == old(log) + o.calls && r == o.result
    {
      var rx;
      r, rx := Offer(src, None, len);
    }

    /** `spi_read_blocking`: `len` copies of `repeated_tx_data` are sent. */
    method ReadBlocking(repeatedTxData: byte, dst: seq<byte>, len: nat) returns (r: int, dstOut: seq<byte>)
      requires |dst| == len
      modifies this`log
      ensures var o := Chain(handlers, old(log), Repeated(repeatedTxData, len), Some(dst), len, 0);
        log == old(log) + o.calls && r == o.result && Some(dstOut) == o.rx
    {
      var tx := Repeated(repeatedTxData, len);
      ChainSpec(handlers, log, tx, Some(dst), len, 0);
      var rx;
      r, rx := Offer(tx, Some(dst), len);
      dstOut := rx.value;
    }
  }
}
