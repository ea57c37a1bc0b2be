/**
  The host-side I2C simulator of src/host/hardware_i2c/i2c.c: simulated
  devices register transaction handlers on `i2c0`; a blocking write
  signals start (unless the previous write ended without a stop), sends
  the address byte and then the data bytes to every handler, and signals
  stop unless asked not to.

  A handler is opaque C code with its own state. The model names each
  handler by an identifier (its ops table and `userdata`) and gives its
  `trans` answer as a function of the bus events seen so far and the
  byte, which covers every deterministic device simulation. Every call
  of `start`, `stop` and `trans` is recorded, in order, in `log`.
*/
module I2c {
  import opened Common

  /** `PICO_ERROR_GENERIC`. */
  const ErrorGeneric: int := -1

  /** A call the bus made into one handler. */
  datatype BusEvent = Start(handler: nat) | Stop(handler: nat) | Trans(handler: nat, b: byte)

  /** A registered handler: its identity and its answer to `trans` (0 is an acknowledge). */
  datatype Handler = Handler(id: nat, trans: (seq<BusEvent>, byte) -> int)

  /** `i2c_start_all`: one start per handler, in list order. */
  function Starts(hs: seq<Handler>): (r: seq<BusEvent>)
    ensures |r| == |hs| && forall k :: 0 <= k < |hs| ==> r[k] == Start(hs[k].id)
  {
    seq(|hs|, k requires 0 <= k < |hs| => Start(hs[k].id))
  }

  /** `i2c_stop_all`: one stop per handler, in list order. */
  function Stops(hs: seq<Handler>): (r: seq<BusEvent>)
    ensures |r| == |hs| && forall k :: 0 <= k < |hs| ==> r[k] == Stop(hs[k].id)
  {
    seq(|hs|, k requires 0 <= k < |hs| => Stop(hs[k].id))
  }

  /** The calls one byte makes: `trans` on every handler, in list order. */
  function TransEvents(hs: seq<Handler>, b: byte): (r: seq<BusEvent>)
    ensures |r| == |hs| && forall k :: 0 <= k < |hs| ==> r[k] == Trans(hs[k].id, b)
  {
    seq(|hs|, k requires 0 <= k < |hs| => Trans(hs[k].id, b))
  }

  /** What handler `k` answers to byte `b`, having seen `history` and the calls to the handlers before it. */
  function Answer(hs: seq<Handler>, history: seq<BusEvent>, b: byte, k: nat): int
    requires k < |hs|
  {
    hs[k].trans(history + TransEvents(hs[..k], b), b)
  }

  /** Some handler from the `k`-th on acknowledges byte `b`. */
  predicate AckedFrom(hs: seq<Handler>, history: seq<BusEvent>, b: byte, k: nat)
    requires k <= |hs|
    decreases |hs| - k
  {
    k < |hs| && (Answer(hs, history, b, k) == 0 || AckedFrom(hs, history, b, k + 1))
  }

  /** Some handler acknowledged byte `b`. */
  predicate Acked(hs: seq<Handler>, history: seq<BusEvent>, b: byte)
  {
    AckedFrom(hs, history, b, 0)
  }

  /** `AckedFrom` is an existential over the remaining handlers. */
  lemma {:induction false} AckedFromSome(hs: seq<Handler>, history: seq<BusEvent>, b: byte, k: nat)
    requires k <= |hs|
    ensures AckedFrom(hs, history, b, k) <==> exists j :: k <= j < |hs| && Answer(hs, history, b, j) == 0
    decreases |hs| - k
  {
    if k < |hs| {
      AckedFromSome(hs, history, b, k + 1);
    }
  }

  /** A byte is acknowledged exactly when at least one handler answered 0 to it. */
  lemma AckedIffSomeAnswerZero(hs: seq<Handler>, history: seq<BusEvent>, b: byte)
    ensures Acked(hs, history, b) <==> exists j :: 0 <= j < |hs| && Answer(hs, history, b, j) == 0
  {
    AckedFromSome(hs, history, b, 0);
  }

  /** The byte sent for address `addr`: `addr & 0xFE`, the address with its low bit cleared. */
  function AddressByte(addr: byte): (b: byte)
    ensures b % 2 == 0 && (b == addr || b + 1 == addr)
  {
    addr - addr % 2
  }

  /** What the data phase of a write did: the calls made, how many bytes went out, whether the last was acknowledged. */
  datatype DataResult = DataResult(events: seq<BusEvent>, sent: nat, ok: bool)

  /** The do-while of `i2c_write_blocking`: send bytes until one is not acknowledged or none is left. */
  function DataPhase(hs: seq<Handler>, history: seq<BusEvent>, src: seq<byte>): DataResult
    requires |src| >= 1
    decreases |src|
  {
    var ev := TransEvents(hs, src[0]);
    if !Acked(hs, history, src[0]) then DataResult(ev, 1, false)
    else if |src| == 1 then DataResult(ev, 1, true)
    else
      var rest := DataPhase(hs, history + ev, src[1..]);
      DataResult(ev + rest.events, 1 + rest.sent, rest.ok)
  }

  /** The history each data byte is sent after: everything before it, including the earlier data bytes. */
  function HistoryBefore(hs: seq<Handler>, history: seq<BusEvent>, src: seq<byte>, j: nat): seq<BusEvent>
    requires j <= |src|
    decreases j
  {
    if j == 0 then history else HistoryBefore(hs, history, src, j - 1) + TransEvents(hs, src[j - 1])
  }

  /** `HistoryBefore` seen from the second byte on. */
  lemma {:induction false} HistoryBeforeShift(hs: seq<Handler>, history: seq<BusEvent>, src: seq<byte>, j: nat)
    requires 1 <= j <= |src|
    ensures HistoryBefore(hs, history, src, j) == HistoryBefore(hs, history + TransEvents(hs, src[0]), src[1..], j - 1)
    decreases j
  {
    if j > 1 {
      HistoryBeforeShift(hs, history, src, j - 1);
    }
  }

  /** The data phase sends between one byte and all of them, and succeeds only if it sent them all. */
  lemma {:induction false} DataPhaseSent(hs: seq<Handler>, history: seq<BusEvent>, src: seq<byte>)
    requires |src| >= 1
    ensures 1 <= DataPhase(hs, history, src).sent <= |src|
    ensures DataPhase(hs, history, src).ok ==> DataPhase(hs, history, src).sent == |src|
    decreases |src|
  {
    var ev := TransEvents(hs, src[0]);
    if Acked(hs, history, src[0]) && |src| > 1 {
      DataPhaseSent(hs, history + ev, src[1..]);
    }
  }

  /** Every byte before the last one the data phase sent was acknowledged. */
  lemma {:induction false} DataPhasePrefixAcked(hs: seq<Handler>, history: seq<BusEvent>, src: seq<byte>)
    requires |src| >= 1
    ensures 1 <= DataPhase(hs, history, src).sent <= |src|
    ensures forall j :: 0 <= j < DataPhase(hs, history, src).sent - 1 ==>
      Acked(hs, HistoryBefore(hs, history, src, j), src[j])
    decreases |src|
  {
    DataPhaseSent(hs, history, src);
    var ev := TransEvents(hs, src[0]);
    DataPhaseUnfold(hs, history, src);
    if Acked(hs, history, src[0]) && |src| > 1 {
      var tail := src[1..];
      DataPhasePrefixAcked(hs, history + ev, tail);
      var n := DataPhase(hs, history, src).sent;
      assert n == 1 + DataPhase(hs, history + ev, tail).sent;
      forall j | 0 <= j < n - 1
        ensures Acked(hs, HistoryBefore(hs, history, src, j), src[j])
      {
        if j > 0 {
          HistoryBeforeShift(hs, history, src, j);
          assert src[j] == tail[j - 1];
        }
      }
    }
  }

  /** The data phase succeeds exactly when the last byte it sent was acknowledged. */
  lemma {:induction false} DataPhaseLastAck(hs: seq<Handler>, history: seq<BusEvent>, src: seq<byte>)
    requires |src| >= 1
    ensures 1 <= DataPhase(hs, history, src).sent <= |src|
    ensures var d := DataPhase(hs, history, src);
      d.ok <==> Acked(hs, HistoryBefore(hs, history, src, d.sent - 1), src[d.sent - 1])
    decreases |src|
  {
    DataPhaseSent(hs, history, src);
    var ev := TransEvents(hs, src[0]);
    DataPhaseUnfold(hs, history, src);
    if Acked(hs, history, src[0]) && |src| > 1 {
      var tail := src[1..];
      DataPhaseLastAck(hs, history + ev, tail);
      var rest := DataPhase(hs, history + ev, tail);
      var k := rest.sent;
      assert DataPhase(hs, history, src) == DataResult(ev + rest.events, k + 1, rest.ok);
      HistoryBeforeShift(hs, history, src, k);
      assert src[k] == tail[k - 1];
    } else {
      assert HistoryBefore(hs, history, src, 0) == history;
    }
  }

  /**
    The data phase sends a non-empty prefix of `src`, each byte to every
    handler: every byte before the last one sent was acknowledged, and the
    phase succeeds exactly when the last byte sent was acknowledged, which
    happens only once all of `src` went out; so it stops at the first byte
    nobody acknowledged.
  */
  lemma DataPhaseAcks(hs: seq<Handler>, history: seq<BusEvent>, src: seq<byte>)
    requires |src| >= 1
    ensures var d := DataPhase(hs, history, src);
      && 1 <= d.sent <= |src|
      && (d.ok ==> d.sent == |src|)
      && (forall j :: 0 <= j < d.sent - 1 ==> Acked(hs, HistoryBefore(hs, history, src, j), src[j]))
      && (d.ok <==> Acked(hs, HistoryBefore(hs, history, src, d.sent - 1), src[d.sent - 1]))
  {
    DataPhaseSent(hs, history, src);
    DataPhasePrefixAcked(hs, history, src);
    DataPhaseLastAck(hs, history, src);
  }

  /** One step of the data phase: the first byte, then either the end or the rest of the bytes. */
  lemma DataPhaseUnfold(hs: seq<Handler>, history: seq<BusEvent>, src: seq<byte>)
    requires |src| >= 1
    ensures var ev := TransEvents(hs, src[0]);
      && (!Acked(hs, history, src[0]) || |src| == 1 ==>
            DataPhase(hs, history, src) == DataResult(ev, 1, Acked(hs, history, src[0])))
      && (Acked(hs, history, src[0]) && |src| > 1 ==>
            var rest := DataPhase(hs, history + ev, src[1..]);
            DataPhase(hs, history, src) == DataResult(ev + rest.events, 1 + rest.sent, rest.ok))
  {
  }

  /**
    The loop of `SendData` sends byte `i` after `sent`; afterwards the
    phase either ends there or goes on with the following bytes.
  */
  lemma DataPhaseStep(hs: seq<Handler>, h: seq<BusEvent>, sent: seq<BusEvent>, history: seq<BusEvent>,
                      src: seq<byte>, i: nat)
    requires i < |src| && history == h + sent
    requires var rest := DataPhase(hs, history, src[i..]);
      DataPhase(hs, h, src) == DataResult(sent + rest.events, i + rest.sent, rest.ok)
    ensures var ev := TransEvents(hs, src[i]);
      var acked := Acked(hs, history, src[i]);
      && history + ev == h + (sent + ev)
      && (!acked || i + 1 == |src| ==> DataPhase(hs, h, src) == DataResult(sent + ev, i + 1, acked))
      && (acked && i + 1 < |src| ==>
            var rest := DataPhase(hs, history + ev, src[i + 1..]);
            DataPhase(hs, h, src) == DataResult((sent + ev) + rest.events, (i + 1) + rest.sent, rest.ok))
  {
    var ev := TransEvents(hs, src[i]);
    AppendAssoc(h, sent, ev);
    DataPhaseUnfold(hs, history, src[i..]);
    assert src[i..][0] == src[i];
    assert src[i..][1..] == src[i + 1..];
    if Acked(hs, history, src[i]) && i + 1 < |src| {
      var rest := DataPhase(hs, history + ev, src[i + 1..]);
      AppendAssoc(sent, ev, rest.events);
    }
  }

  /** `i2c_init`, `i2c_get_write_available`, `i2c_get_read_available`: constants. */
  function InitResult(baudrate: nat): nat { baudrate }
  function WriteAvailable(): nat { 1 }
  function ReadAvailable(): nat { 0 }

  /** The simulator's stubs: init hands the baudrate back, one byte can always be written, none read. */
  lemma StubResults(baudrate: nat)
    ensures InitResult(baudrate) == baudrate && WriteAvailable() == 1 && ReadAvailable() == 0
  {
  }

  /** `i2c0`: its handler list (newest first), `restart_on_next`, and the calls made so far. */
  class I2cBus {
    var handlers: seq<Handler>
    var restartOnNext: bool
    var log: seq<BusEvent>

    /** `i2c0_inst`: no handlers, and the first write starts with a start condition. */
    constructor ()
      ensures handlers == [] && restartOnNext && log == []
    {
      handlers := [];
      restartOnNext := true;
      log := [];
    }

    /** `i2c_register_transaction_handler`: the new handler goes to the head of the list. */
    method RegisterHandler(h: Handler)
      modifies this`handlers
      ensures handlers == [h] + old(handlers)
    {
      handlers := [h] + handlers;
    }

    /** `i2c_start_all`. */
    method StartAll()
      modifies this`log
      ensures log == old(log) + Starts(handlers)
    {
      var i := 0;
      while i < |handlers|
        invariant 0 <= i <= |handlers|
        invariant log == old(log) + Starts(handlers[..i])
      {
        assert Starts(handlers[..i + 1]) == Starts(handlers[..i]) + [Start(handlers[i].id)];
        log := log + [Start(handlers[i].id)];
        i := i + 1;
      }
      assert handlers[..i] == handlers;
    }

    /** `i2c_stop_all`. */
    method StopAll()
      modifies this`log
      ensures log == old(log) + Stops(handlers)
    {
      var i := 0;
      while i < |handlers|
        invariant 0 <= i <= |handlers|
        invariant log == old(log) + Stops(handlers[..i])
      {
        assert Stops(handlers[..i + 1]) == Stops(handlers[..i]) + [Stop(handlers[i].id)];
        log := log + [Stop(handlers[i].id)];
        i := i + 1;
      }
      assert handlers[..i] == handlers;
    }

    /**
      `i2c_do_trans`: every handler is asked, with no short cut, and the
      result is 0 exactly when at least one of them acknowledged.
    */
    method DoTrans(b: byte) returns (r: int)
      modifies this`log
      ensures log == old(log) + TransEvents(handlers, b)
      ensures r == 0 || r == -1
      ensures r == 0 <==> Acked(handlers, old(log), b)
    {
      r := -1;
      var i := 0;
      while i < |handlers|
        invariant 0 <= i <= |handlers|
        invariant log == old(log) + TransEvents(handlers[..i], b)
        invariant r == 0 || r == -1
        invariant (r == 0 || AckedFrom(handlers, old(log), b, i)) == Acked(handlers, old(log), b)
      {
        assert handlers[..i + 1][..i] == handlers[..i];
        var tr := handlers[i].trans(log, b);
        assert tr == Answer(handlers, old(log), b, i);
        assert TransEvents(handlers[..i + 1], b) == TransEvents(handlers[..i], b) + [Trans(handlers[i].id, b)];
        log := log + [Trans(handlers[i].id, b)];
        if tr == 0 {
          r := 0;
        }
        i := i + 1;
      }
      assert handlers[..i] == handlers;
    }

    /**
      The do-while of `i2c_write_blocking`: send `src` byte by byte until
      one is not acknowledged or none is left; 0 when the last byte sent
      was acknowledged, -1 otherwise.
    */
    method SendData(src: seq<byte>) returns (r: int)
      requires |src| >= 1
      modifies this`log
      ensures log == old(log) + DataPhase(handlers, old(log), src).events
      ensures r == 0 || r == -1
      ensures r == 0 <==> DataPhase(handlers, old(log), src).ok
    {
      ghost var h := log;
      ghost var sent: seq<BusEvent> := [];
      var i := 0;
      while true
        invariant 0 <= i < |src|
        invariant log == h + sent
        invariant var rest := DataPhase(handlers, log, src[i..]);
          DataPhase(handlers, h, src) == DataResult(sent + rest.events, i + rest.sent, rest.ok)
        decreases |src| - i
      {
        ghost var ev := TransEvents(handlers, src[i]);
        DataPhaseStep(handlers, h, sent, log, src, i);
        r := DoTrans(src[i]);
        sent := sent + ev;
        i := i + 1;
        if r < 0 || i == |src| {
          break;
        }
      }
    }

    /**
      `i2c_write_blocking`: start (when the previous write ended with a
      stop), the address byte, then the data bytes only if the address was
      acknowledged, then stop unless `nostop`. The result is 0 when the
      address and every data byte were acknowledged, `PICO_ERROR_GENERIC`
      otherwise; it is not a byte count.
    */
    method WriteBlocking(addr: byte, src: seq<byte>, nostop: bool) returns (r: int)
      requires |src| >= 1
      modifies this`log, this`restartOnNext
      ensures restartOnNext == !nostop
      ensures var h1 := old(log) + (if old(restartOnNext) then Starts(handlers) else []);
        var addrOk := Acked(handlers, h1, AddressByte(addr));
        var h2 := h1 + TransEvents(handlers, AddressByte(addr));
        var data := if addrOk then DataPhase(handlers, h2, src) else DataResult([], 0, false);
        && log == h2 + data.events + (if nostop then [] else Stops(handlers))
        && (r == 0 <==> addrOk && data.ok)
        && (r == 0 || r == ErrorGeneric)
    {
      if restartOnNext {
        StartAll();
      } else {
        assert log == log + [];
      }
      r := DoTrans(AddressByte(addr));
      ghost var h2 := log;
      if r == 0 {
        r := SendData(src);
      } else {
        assert log == h2 + [];
      }
      ghost var h3 := log;
      if nostop {
        assert log == h3 + [];
        restartOnNext := false;
      } else {
        StopAll();
        restartOnNext := true;
      }
      if r < 0 {
        r := ErrorGeneric;
      }
    }

    /** `i2c_read_blocking`: start and stop on every handler, no data, always `PICO_ERROR_GENERIC`. */
    method ReadBlocking(addr: byte, len: nat, nostop: bool) returns (r: int)
      modifies this`log
      ensures log == old(log) + Starts(handlers) + Stops(handlers)
      ensures r == ErrorGeneric
    {
      StartAll();
      StopAll();
      r := ErrorGeneric;
    }
  }
}
