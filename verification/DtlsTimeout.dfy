/** Timeouts of a DTLS handshake (d1_lib.cc, `DTLSv1_handle_timeout`): the timer,
    the flight that is resent and the packet size, which goes down after some
    timeouts. */
module DtlsTimeout {
  import opened Wrappers
  import opened DtlsWriterSpec
  import opened DtlsWriterRuns
  import opened DtlsWriter
  import opened DtlsTimer

  const MTU_TIMEOUTS := 2
  const MIN_MTU := 256 - 28
  const DEFAULT_MTU := 1500 - 28

  /** A packet size that the BIO may set. */
  predicate MtuOk(mtu: int) {
    MIN_MTU <= mtu <= 0x4000_0000
  }

  /** `dtls1_update_mtu`: what there is if it is large enough, and otherwise what
      the BIO says, or the default. */
  function Updated(mtu: nat, query: bool, answer: int): (m: nat)
    ensures query ==> m >= MIN_MTU
  {
    if mtu >= MIN_MTU || !query then mtu else if MtuOk(answer) then answer else DEFAULT_MTU
  }

  /** The packet size after `timeouts` timeouts. */
  function FallenBack(mtu: nat, query: bool, timeouts: nat, fallback: int): nat {
    if timeouts > MTU_TIMEOUTS && query && MtuOk(fallback) then fallback else mtu
  }

  /** Packet sizes in numbers: from 228 bytes up to 2^30 as the BIO says, 1472 if
      it says nothing of the kind, and the fallback after more than two timeouts. */
  lemma PacketSizesExactly(mtu: nat, query: bool, timeouts: nat, answer: int)
    ensures Updated(mtu, query, answer) ==
              if mtu >= 228 || !query then mtu else if 228 <= answer <= 0x4000_0000 then answer else 1472
    ensures FallenBack(mtu, query, timeouts, answer) ==
              if timeouts >= 3 && query && 228 <= answer <= 0x4000_0000 then answer else mtu
  {
  }

  class Transport {
    const timer: RetransmitTimer
    const flight: Flight
    // No SSL_OP_NO_QUERY_MTU.
    const query: bool
    var mtu: nat

    ghost predicate Valid()
      reads this, timer, flight, flight.outgoing, flight.keys
    {
      timer.Valid() && flight.Valid()
    }

    constructor (timer: RetransmitTimer, flight: Flight, query: bool, mtu: nat)
      requires timer.Valid() && flight.Valid()
      ensures Valid() && this.timer == timer && this.flight == flight && this.query == query && this.mtu == mtu
    {
      this.timer, this.flight, this.query, this.mtu := timer, flight, query, mtu;
    }

    /** `dtls1_update_mtu` */
    method UpdateMtu(answer: int)
      modifies this`mtu
      ensures mtu == Updated(old(mtu), query, answer)
    {
      if mtu < MIN_MTU && query {
        mtu := if MIN_MTU <= answer <= 0x4000_0000 then answer else DEFAULT_MTU;
      }
    }

    /** `add_outgoing`: the first message of a new flight stops the timer. */
    method AddOutgoing(data: seq<byte>, isCcs: bool) returns (ok: bool)
      requires Valid()
      modifies timer, flight, flight.outgoing
      ensures Valid() && (flight.Abs(), ok) == DtlsWriterRuns.AddOutgoing(old(flight.Abs()), data, isCcs)
      ensures timer.Abs() == if old(flight.complete) then Timer(ZERO, timer.initial, 0) else old(timer.Abs())
    {
      if flight.complete {
        timer.Stop();
      }
      ok := flight.AddOutgoing(data, isCcs);
    }

    /** `dtls1_flush_flight`: the timer starts, and the flight goes out from where
        it stands. */
    method FlushFlight(bio: Bio, now: Time, answer: int, flushed: bool) returns (ret: int)
      requires Valid() && Clock(now)
      modifies this`mtu, timer, flight`complete, flight`written, flight`offset, flight.keys, bio
      ensures Valid() && timer.Abs() == Started(old(timer.Abs()), timer.initial, now)
      ensures mtu == Updated(old(mtu), query, answer)
      ensures Went(old(flight.Abs()), flight, old(flight.keys.log), Op.Flush(mtu, bio.answers, old(bio.calls)))
      ensures ret == SendResult(old(flight.Abs()), flight, old(flight.Abs()).pos, mtu, bio, old(bio.calls), flushed)
    {
      timer.Start(now);
      UpdateMtu(answer);
      ret := flight.Flush(bio, mtu, flushed);
    }

    /** `DTLSv1_handle_timeout`: nothing before the timer has expired; afterwards
        the packet size may go down, and unless there were too many timeouts
        the timer is restarted with twice the duration and the flight is sent
        again from its start. */
    method HandleTimeout(bio: Bio, now: Time, later: Time, fallback: int, answer: int, flushed: bool) returns (ret: int)
      requires Valid() && Clock(now) && Clock(later)
      modifies this`mtu, timer, flight`written, flight`offset, flight.keys, bio
      ensures Valid()
      ensures timer.Abs() == Handled(old(timer.Abs()), timer.initial, now, later).0
      ensures match Handled(old(timer.Abs()), timer.initial, now, later).1
              case NotExpired => ret == 0 && mtu == old(mtu) && Untouched(old(flight.Abs()), flight, old(flight.keys.log))
              case GiveUp =>
                && ret == -1 && mtu == FallenBack(old(mtu), query, timer.timeouts, fallback)
                && Untouched(old(flight.Abs()), flight, old(flight.keys.log))
              case Retransmit =>
                && mtu == Updated(FallenBack(old(mtu), query, timer.timeouts, fallback), query, answer)
                && Went(old(flight.Abs()), flight, old(flight.keys.log), Op.Retransmit(mtu, bio.answers, old(bio.calls)))
                && ret == SendResult(old(flight.Abs()), flight, Pos(0, 0), mtu, bio, old(bio.calls), flushed)
    {
      var verdict := timer.HandleTimeout(now, later);
      if verdict.NotExpired? {
        return 0;
      }
      if timer.timeouts > MTU_TIMEOUTS && query && MIN_MTU <= fallback <= 0x4000_0000 {
        mtu := fallback;
      }
      if verdict.GiveUp? {
        return -1;
      }
      UpdateMtu(answer);
      ret := flight.Retransmit(bio, mtu, flushed);
    }
  }

  /** The flight has done the operation. */
  ghost predicate Went(was: Writer, flight: Flight, log: seq<Sealed>, op: Op)
    requires flight.Valid() && WriterInv(was) && OpOk(op)
    reads flight, flight.outgoing, flight.keys
  {
    flight.Abs() == DtlsWriterRuns.Step(was, flight.keys.tape, op).0 && flight.keys.log == log + DtlsWriterRuns.Step(was, flight.keys.tape, op).1
  }

  ghost predicate Untouched(was: Writer, flight: Flight, log: seq<Sealed>)
    requires flight.Valid()
    reads flight, flight.outgoing, flight.keys
  {
    flight.Abs() == was && flight.keys.log == log
  }

  /** The result of sending the flight from `pos` on. */
  ghost function SendResult(was: Writer, flight: Flight, pos: Pos, mtu: nat, bio: Bio, calls: nat, flushed: bool): int
    requires WriterInv(was) && PosInv(was.outgoing, pos)
  {
    var r := SendFlight(was.keys, flight.keys.tape, was.outgoing, pos, mtu, bio.answers, calls);
    if r.ret > 0 && !flushed then -1 else r.ret
  }
}
