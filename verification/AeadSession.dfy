/**
 The receiving and sending state of an AEAD session: sequence numbers, the replay window and its
 pruning. The cipher is a parameter.
 */
module AeadSession {
  import opened Wrappers
  import opened Bytes

  /** AES-256-GCM under the session's key: sealing with a nonce and associated data, and opening. */
  datatype Cipher = Cipher(
    seal: (ByteString, ByteString, ByteString) -> ByteString,
    unseal: (ByteString, ByteString, ByteString) -> Option<ByteString>)

  datatype Envelope = Envelope(number: int, nonce: ByteString, ciphertext: ByteString)

  datatype Outcome = Replayed | TooOld | BadSequence | Unauthentic | Accepted(plaintext: ByteString)

  datatype Window = Window(seen: set<int>, maxSeen: int)

  const WINDOW: int := 1000
  const PRUNE_ABOVE: int := 2000
  const TWO_64: int := 0x1_0000_0000_0000_0000

  // ----- Associated data

  function BigEndian(n: nat, width: nat): (b: ByteString)
    ensures |b| == width
  {
    if width == 0 then [] else BigEndian(n / 256, width - 1) + [n % 256]
  }

  lemma {:induction false} BigEndianInjective(m: nat, n: nat, width: nat)
    requires m < Pow256(width) && n < Pow256(width)
    requires BigEndian(m, width) == BigEndian(n, width)
    ensures m == n
  {
    if width > 0 {
      var a, b := BigEndian(m / 256, width - 1), BigEndian(n / 256, width - 1);
      assert (a + [m % 256])[..width - 1] == a && (b + [n % 256])[..width - 1] == b;
      assert (a + [m % 256])[width - 1] == (b + [n % 256])[width - 1];
      BigEndianInjective(m / 256, n / 256, width - 1);
    }
  }

  /** `_build_aad`; None where packing the number raises. */
  function Aad(session: ByteString, n: int): Option<ByteString> {
    if 0 <= n < TWO_64 then Some(session + BigEndian(n, 8)) else None
  }

  /** The associated data names the sequence number. */
  lemma AadNamesSequence(session: ByteString, m: int, n: int)
    requires Aad(session, m).Some? && Aad(session, m) == Aad(session, n)
    ensures m == n
  {
    Pow256Values();
    var a, b := session + BigEndian(m, 8), session + BigEndian(n, 8);
    assert a[|session|..] == BigEndian(m, 8) && b[|session|..] == BigEndian(n, 8);
    BigEndianInjective(m, n, 8);
  }

  // ----- Receiving

  function Prune(seen: set<int>, maxSeen: int): set<int> {
    if |seen| > PRUNE_ABOVE then set s | s in seen && s >= maxSeen - WINDOW else seen
  }

  function Verdict(c: Cipher, session: ByteString, w: Window, e: Envelope): Outcome {
    if e.number in w.seen then Replayed
    else if e.number < w.maxSeen - WINDOW then TooOld
    else if Aad(session, e.number).None? then BadSequence
    else
      match c.unseal(e.nonce, e.ciphertext, Aad(session, e.number).value)
      case None => Unauthentic
      case Some(p) => Accepted(p)
  }

  function Next(c: Cipher, session: ByteString, w: Window, e: Envelope): Window {
    if !Verdict(c, session, w, e).Accepted? then w
    else
      var maxSeen := if e.number > w.maxSeen then e.number else w.maxSeen;
      Window(Prune(w.seen + {e.number}, maxSeen), maxSeen)
  }

  /** The numbers from `lo` up to `hi` that are not in `seen`, in order. */
  function Missing(seen: set<int>, lo: int, hi: int): seq<int>
    decreases hi - lo
  {
    if lo >= hi then []
    else (if lo in seen then [] else [lo]) + Missing(seen, lo + 1, hi)
  }

  function Gap(w: Window, received: int): seq<int> {
    if w.maxSeen < 0 then [] else Missing(w.seen, w.maxSeen + 1, received)
  }

  class Session {
    const cipher: Cipher
    const id: ByteString
    var sendSeq: nat
    var seenSeqs: set<int>
    var maxSeenSeq: int

    constructor (cipher: Cipher, id: ByteString)
      ensures this.cipher == cipher && this.id == id && sendSeq == 0
      ensures Window(seenSeqs, maxSeenSeq) == Window({}, -1)
    {
      this.cipher, this.id := cipher, id;
      sendSeq, seenSeqs, maxSeenSeq := 0, {}, -1;
    }

    /** `encrypt`, given the random nonce. The number is spent even where packing it raises. */
    method Encrypt(plaintext: ByteString, nonce: ByteString) returns (e: Option<Envelope>)
      modifies this`sendSeq
      ensures sendSeq == old(sendSeq) + 1
      ensures e.Some? <==> old(sendSeq) < TWO_64
      ensures e.Some? ==> e.value == Envelope(old(sendSeq), nonce, cipher.seal(nonce, plaintext, Aad(id, old(sendSeq)).value))
    {
      var n := sendSeq;
      sendSeq := sendSeq + 1;
      var aad := Aad(id, n);
      if aad.None? {
        return None;
      }
      return Some(Envelope(n, nonce, cipher.seal(nonce, plaintext, aad.value)));
    }

    method Decrypt(e: Envelope) returns (o: Outcome)
      modifies this`seenSeqs, this`maxSeenSeq
      ensures o == Verdict(cipher, id, old(Window(seenSeqs, maxSeenSeq)), e)
      ensures Window(seenSeqs, maxSeenSeq) == Next(cipher, id, old(Window(seenSeqs, maxSeenSeq)), e)
    {
      if e.number in seenSeqs {
        return Replayed;
      }
      if e.number < maxSeenSeq - WINDOW {
        return TooOld;
      }
      var aad := Aad(id, e.number);
      if aad.None? {
        return BadSequence;
      }
      var plaintext := cipher.unseal(e.nonce, e.ciphertext, aad.value);
      if plaintext.None? {
        return Unauthentic;
      }
      seenSeqs := seenSeqs + {e.number};
      if e.number > maxSeenSeq {
        maxSeenSeq := e.number;
      }
      if |seenSeqs| > PRUNE_ABOVE {
        var cutoff := maxSeenSeq - WINDOW;
        seenSeqs := set s | s in seenSeqs && s >= cutoff;
      }
      return Accepted(plaintext.value);
    }

    method CheckGap(received: int) returns (gap: seq<int>)
      ensures gap == Gap(Window(seenSeqs, maxSeenSeq), received)
    {
      return if maxSeenSeq < 0 then [] else Missing(seenSeqs, maxSeenSeq + 1, received);
    }
  }

  // ----- Runs

  function State(c: Cipher, session: ByteString, run: seq<Envelope>): Window {
    if run == [] then Window({}, -1)
    else Next(c, session, State(c, session, run[..|run| - 1]), run[|run| - 1])
  }

  /** Whether envelope `i` of a run was accepted. */
  predicate WasAccepted(c: Cipher, session: ByteString, run: seq<Envelope>, i: nat)
    requires i < |run|
  {
    Verdict(c, session, State(c, session, run[..i]), run[i]).Accepted?
  }

  /** The numbers accepted so far: the whole history, which the window only approximates. */
  function AcceptedSeqs(c: Cipher, session: ByteString, run: seq<Envelope>): set<int> {
    if run == [] then {}
    else
      var front, e := run[..|run| - 1], run[|run| - 1];
      AcceptedSeqs(c, session, front)
      + if Verdict(c, session, State(c, session, front), e).Accepted? then {e.number} else {}
  }

  // ----- What every run keeps

  /** The window remembers every accepted number that is recent enough to be accepted again. */
  predicate Remembers(w: Window, accepted: set<int>) {
    && w.seen <= accepted
    && (forall s :: s in accepted && s >= w.maxSeen - WINDOW ==> s in w.seen)
    && (forall s :: s in accepted ==> 0 <= s <= w.maxSeen)
    && (w.maxSeen in accepted || (w.maxSeen == -1 && accepted == {}))
    && |w.seen| <= PRUNE_ABOVE
  }

  lemma {:induction false} RangeSize(s: set<int>, lo: int, hi: int)
    requires forall x :: x in s ==> lo <= x < hi
    requires lo <= hi
    ensures |s| <= hi - lo
    decreases hi - lo
  {
    if lo == hi {
      assert s == {};
    } else {
      RangeSize(s - {lo}, lo + 1, hi);
      assert |s| <= |s - {lo}| + 1 by {
        if lo in s { assert s == (s - {lo}) + {lo}; } else { assert s == s - {lo}; }
      }
    }
  }

  /** Taking in a number that is neither seen nor too old. */
  lemma AddingRemembers(w: Window, n: nat, accepted: set<int>)
    requires Remembers(w, accepted) && n !in w.seen && n >= w.maxSeen - WINDOW
    ensures n !in accepted
    ensures var maxSeen := if n > w.maxSeen then n else w.maxSeen;
            Remembers(Window(Prune(w.seen + {n}, maxSeen), maxSeen), accepted + {n})
  {
    var maxSeen := if n > w.maxSeen then n else w.maxSeen;
    var seen := w.seen + {n};
    if |seen| > PRUNE_ABOVE {
      RangeSize(Prune(seen, maxSeen), maxSeen - WINDOW, maxSeen + 1);
    }
  }

  lemma StepRemembers(c: Cipher, session: ByteString, w: Window, e: Envelope, accepted: set<int>)
    requires Remembers(w, accepted)
    ensures Remembers(Next(c, session, w, e),
                      accepted + if Verdict(c, session, w, e).Accepted? then {e.number} else {})
    ensures Verdict(c, session, w, e).Accepted? ==> e.number !in accepted
  {
    hide Remembers, Prune;
    if Verdict(c, session, w, e).Accepted? {
      AddingRemembers(w, e.number, accepted);
    } else {
      assert accepted + {} == accepted;
    }
  }

  lemma {:induction false} RunRemembers(c: Cipher, session: ByteString, run: seq<Envelope>)
    ensures Remembers(State(c, session, run), AcceptedSeqs(c, session, run))
  {
    if run != [] {
      var front := run[..|run| - 1];
      RunRemembers(c, session, front);
      StepRemembers(c, session, State(c, session, front), run[|run| - 1], AcceptedSeqs(c, session, front));
    }
  }

  // ----- Main results

  /** After every call at most 2000 numbers are tracked. */
  lemma TrackingBounded(c: Cipher, session: ByteString, run: seq<Envelope>)
    ensures |State(c, session, run).seen| <= 2000
  {
    RunRemembers(c, session, run);
  }

  /** An envelope is accepted exactly when it is authentic, its number fits 64 bits, was never
      accepted before in the whole run, and is at most 1000 below the greatest accepted. Pruning
      neither lets a replay in nor turns a fresh number away. */
  lemma AcceptedExactly(c: Cipher, session: ByteString, run: seq<Envelope>, e: Envelope)
    ensures Verdict(c, session, State(c, session, run), e).Accepted? <==>
      && Aad(session, e.number).Some?
      && c.unseal(e.nonce, e.ciphertext, Aad(session, e.number).value).Some?
      && e.number !in AcceptedSeqs(c, session, run)
      && forall s :: s in AcceptedSeqs(c, session, run) ==> e.number >= s - 1000
  {
    RunRemembers(c, session, run);
  }

  lemma {:induction false} AcceptedContains(c: Cipher, session: ByteString, run: seq<Envelope>, i: nat)
    requires i < |run| && WasAccepted(c, session, run, i)
    ensures run[i].number in AcceptedSeqs(c, session, run)
  {
    hide Verdict, State;
    var front := run[..|run| - 1];
    if i < |run| - 1 {
      assert front[..i] == run[..i];
      AcceptedContains(c, session, front, i);
    }
  }

  /** Over a whole run no number is accepted twice. */
  lemma NoReplay(c: Cipher, session: ByteString, run: seq<Envelope>, i: nat, j: nat)
    requires i < j < |run| && WasAccepted(c, session, run, i) && WasAccepted(c, session, run, j)
    ensures run[i].number != run[j].number
  {
    hide Verdict, State;
    var before := run[..j];
    assert before[..i] == run[..i];
    AcceptedContains(c, session, before, i);
    AcceptedExactly(c, session, before, run[j]);
  }

  /** A cipher that opens a ciphertext under the associated data it was sealed with, if at all. */
  ghost predicate BindsAad(c: Cipher) {
    forall n, x, a, b :: c.unseal(n, x, a).Some? && c.unseal(n, x, b).Some? ==> a == b
  }

  /** So the same ciphertext is never accepted twice, whatever number it is sent under. */
  lemma NoCiphertextTwice(c: Cipher, session: ByteString, run: seq<Envelope>, i: nat, j: nat)
    requires BindsAad(c)
    requires i < j < |run| && WasAccepted(c, session, run, i) && WasAccepted(c, session, run, j)
    ensures run[i].nonce != run[j].nonce || run[i].ciphertext != run[j].ciphertext
  {
    hide State;
    NoReplay(c, session, run, i, j);
    if run[i].nonce == run[j].nonce && run[i].ciphertext == run[j].ciphertext {
      AadNamesSequence(session, run[i].number, run[j].number);
      assert false;
    }
  }

  /** What was sealed arrives: a sender's envelope, in any order among the last 1000, opens to its
      plaintext the first time. */
  lemma SealedArrives(c: Cipher, session: ByteString, run: seq<Envelope>, n: nat, nonce: ByteString,
          plaintext: ByteString)
    requires n < TWO_64
    requires forall k, p, a :: c.unseal(k, c.seal(k, p, a), a) == Some(p)
    requires n !in AcceptedSeqs(c, session, run)
    requires forall s :: s in AcceptedSeqs(c, session, run) ==> n >= s - 1000
    ensures Verdict(c, session, State(c, session, run),
                    Envelope(n, nonce, c.seal(nonce, plaintext, Aad(session, n).value))) == Accepted(plaintext)
  {
    AcceptedExactly(c, session, run, Envelope(n, nonce, c.seal(nonce, plaintext, Aad(session, n).value)));
  }

  // ----- Gaps

  lemma {:induction false} MissingElements(seen: set<int>, lo: int, hi: int)
    ensures forall n :: n in Missing(seen, lo, hi) <==> lo <= n < hi && n !in seen
    decreases hi - lo
  {
    if lo < hi {
      MissingElements(seen, lo + 1, hi);
    }
  }

  /** `check_gap` reports every number between the greatest accepted and the received one; it never
      looks below, so it tells all the numbers still missing exactly when nothing is missing below
      the greatest accepted. */
  lemma GapsReported(c: Cipher, session: ByteString, run: seq<Envelope>, received: int)
    ensures var w := State(c, session, run);
            var accepted := AcceptedSeqs(c, session, run);
            && (w.maxSeen < 0 ==> accepted == {} && Gap(w, received) == [])
            && (w.maxSeen >= 0 ==>
              && (forall n :: n in Gap(w, received) <==> w.maxSeen < n < received)
              && ((forall n :: n in Gap(w, received) <==> 0 <= n < received && n !in accepted)
                  <==> (forall n :: 0 <= n < received && n < w.maxSeen ==> n in accepted)))
  {
    hide Missing, State, AcceptedSeqs;
    RunRemembers(c, session, run);
    var w, accepted := State(c, session, run), AcceptedSeqs(c, session, run);
    if w.maxSeen >= 0 {
      GapElements(w, accepted, received);
      if n :| 0 <= n < received && n < w.maxSeen && n !in accepted {
        assert n !in Gap(w, received);
      }
    }
  }

  lemma GapElements(w: Window, accepted: set<int>, received: int)
    requires Remembers(w, accepted) && w.maxSeen >= 0
    ensures forall n :: n in Gap(w, received) <==> w.maxSeen < n < received
  {
    hide Missing;
    MissingElements(w.seen, w.maxSeen + 1, received);
  }

  /** Two authentic envelopes, 0 and then 2: the run accepts both, and 1, though missing, is not
      reported. */
  lemma GapBelowUnreported(c: Cipher, session: ByteString, a: Envelope, b: Envelope)
    requires a.number == 0 && b.number == 2
    requires c.unseal(a.nonce, a.ciphertext, Aad(session, 0).value).Some?
    requires c.unseal(b.nonce, b.ciphertext, Aad(session, 2).value).Some?
    ensures AcceptedSeqs(c, session, [a, b]) == {0, 2}
    ensures Gap(State(c, session, [a, b]), 4) == [3]
  {
    assert [a, b][..1] == [a] && [a][..0] == [];
    assert State(c, session, []) == Window({}, -1);
    assert State(c, session, [a]) == Window({0}, 0);
    assert State(c, session, [a, b]) == Window({0, 2}, 2);
    assert AcceptedSeqs(c, session, [a]) == {0};
    assert Missing({0, 2}, 4, 4) == [];
    assert Missing({0, 2}, 3, 4) == [3];
  }
}
