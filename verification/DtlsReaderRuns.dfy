/** Whole runs of the receiving side: any packets, in any order, interleaved
    with the calls of the handshake driver. */
module DtlsReaderRuns {
  import opened Wrappers
  import opened DtlsWire
  import opened DtlsReassembly
  import opened DtlsRecordFormat
  import opened DtlsReplay
  import opened DtlsReaderSpec

  datatype Event =
    | Packet(s: seq<byte>)   // dtls1_open_handshake on the bytes at hand
    | GetMessage             // dtls1_get_message
    | NextMessage            // dtls1_next_message
    | TakeCcs                // dtls1_open_change_cipher_spec, flag already set
    | SetReadState(aead: Aead)

  lemma {:induction false} TakeFragmentsKeepCurrent(r: Ring, epoch: nat, maxLen: nat, s: seq<byte>)
    requires RingInv(r) && HasCurrent(r)
    ensures HasCurrent(TakeFragments(r, epoch, maxLen, s).0)
    decreases |s|
  {
    if s != [] && ParseFragment(s).Some? {
      var (f, rest) := ParseFragment(s).value;
      SerializeParsed(s);
      TakeFragmentKeepsRing(r, epoch, maxLen, f);
      if TakeFragment(r, epoch, maxLen, f).Ok? {
        TakeFragmentsKeepCurrent(TakeFragment(r, epoch, maxLen, f).value, epoch, maxLen, rest);
      }
    }
  }

  lemma OpenHandshakeKeepsReader(rd: Reader, maxLen: nat, s: seq<byte>)
    requires ReaderInv(rd)
    ensures ReaderInv(OpenHandshake(rd, maxLen, s).0)
  {
    var (verdict, _, recorded) := OpenRecord(rd, s);
    if verdict.OpenSuccess? && rd.hasMessage {
      TakeFragmentsKeepCurrent(rd.ring, rd.epoch, maxLen, verdict.plain);
    }
  }

  /** One event. A message can be handed on only while it is held, and the keys
      can change only while no other handshake data is buffered. */
  ghost function Step(rd: Reader, maxLen: nat, ev: Event): (rd': Reader)
    requires ReaderInv(rd)
    ensures ReaderInv(rd')
  {
    match ev
    case Packet(s) => OpenHandshakeKeepsReader(rd, maxLen, s); OpenHandshake(rd, maxLen, s).0
    case GetMessage => if HasCurrent(rd.ring) then rd.(hasMessage := true) else rd
    case NextMessage =>
      if rd.hasMessage then
        NextRingKeepsRing(rd.ring);
        rd.(ring := NextRing(rd.ring), hasMessage := false)
      else rd
    case TakeCcs => rd.(hasCcs := false)
    case SetReadState(aead) => if HasUnprocessed(rd) then rd else NewReadState(rd, aead)
  }

  ghost function Run(rd: Reader, maxLen: nat, evs: seq<Event>): (rd': Reader)
    requires ReaderInv(rd)
    ensures ReaderInv(rd')
    decreases |evs|
  {
    if evs == [] then rd
    else Step(Run(rd, maxLen, evs[..|evs| - 1]), maxLen, evs[|evs| - 1])
  }

  /** A connection that has received nothing. */
  function Initial(aead: Aead): Reader {
    Reader(false, 0, EMPTY_WINDOW, aead, Ring(0, EMPTY_SLOTS), false, false)
  }

  /** The sequence numbers (epoch in the top 16 bits) accepted along a run. */
  ghost function Accepted(rd: Reader, maxLen: nat, evs: seq<Event>): seq<nat>
    requires ReaderInv(rd)
    decreases |evs|
  {
    if evs == [] then []
    else
      var before := evs[..|evs| - 1];
      var recorded := RecordedBy(Run(rd, maxLen, before), evs[|evs| - 1]);
      Accepted(rd, maxLen, before) + if recorded.Some? then [recorded.value] else []
  }

  function RecordedBy(rd: Reader, ev: Event): Option<nat> {
    if ev.Packet? then OpenRecord(rd, ev.s).2 else None
  }

  /** What one event does to the epoch and the replay window. */
  lemma StepOnWindow(rd: Reader, maxLen: nat, ev: Event)
    requires ReaderInv(rd)
    ensures var rd' := Step(rd, maxLen, ev); var n := RecordedBy(rd, ev);
            if n.Some? then
              && rd'.epoch == rd.epoch && rd'.window == rd.window.Record(n.value)
              && n.value / SEQ_LIMIT == rd.epoch && n.value !in rd.window.seen
            else
              || (rd'.epoch == rd.epoch && rd'.window == rd.window)
              || (rd'.epoch == (rd.epoch + 1) % 0x1_0000 && ev.SetReadState?)
  {
    if ev.Packet? {
      WindowMovesOnlyOnAuthenticRecords(rd, ev.s);
    }
  }

  function KeyChanges(evs: seq<Event>): nat {
    if evs == [] then 0
    else KeyChanges(evs[..|evs| - 1]) + if evs[|evs| - 1].SetReadState? then 1 else 0
  }

  /** What a run has accepted, seen from its last state: nothing of a later
      epoch, and everything of the current one is in the window. */
  lemma {:induction false} AcceptedIsInWindow(aead: Aead, maxLen: nat, evs: seq<Event>)
    requires KeyChanges(evs) < 0x1_0000
    ensures var rd := Run(Initial(aead), maxLen, evs);
            && rd.epoch <= KeyChanges(evs)
            && forall n | n in Accepted(Initial(aead), maxLen, evs) ::
                 n / SEQ_LIMIT < rd.epoch || (n / SEQ_LIMIT == rd.epoch && n in rd.window.seen)
    decreases |evs|
  {
    if evs == [] {
    } else {
      var before, ev := evs[..|evs| - 1], evs[|evs| - 1];
      AcceptedIsInWindow(aead, maxLen, before);
      StepOnWindow(Run(Initial(aead), maxLen, before), maxLen, ev);
    }
  }

  ghost predicate Distinct(ns: seq<nat>) {
    forall i, j :: 0 <= i < j < |ns| ==> ns[i] != ns[j]
  }

  /** Replay protection over a whole connection: until the 16-bit read epoch
      wraps, no (epoch, sequence number) is accepted twice, whatever packets
      arrive. */
  lemma {:induction false} AcceptedAtMostOnce(aead: Aead, maxLen: nat, evs: seq<Event>)
    requires KeyChanges(evs) < 0x1_0000
    ensures Distinct(Accepted(Initial(aead), maxLen, evs))
    decreases |evs|
  {
    if evs == [] {
    } else {
      var before, ev := evs[..|evs| - 1], evs[|evs| - 1];
      var rd, ns := Run(Initial(aead), maxLen, before), Accepted(Initial(aead), maxLen, before);
      AcceptedAtMostOnce(aead, maxLen, before);
      AcceptedIsInWindow(aead, maxLen, before);
      StepOnWindow(rd, maxLen, ev);
      var n := RecordedBy(rd, ev);
      if n.Some? {
        assert n.value !in ns;
        assert Distinct(ns + [n.value]);
      }
    }
  }
}
