/** The fingerprints a burst leaves behind, and when a packet contradicts them. */
module Fingerprinting {
  import opened Gvsp
  import opened Reassembly
  import opened Receiver
  import opened Bursts

  function PrintOf(b: Burst, k: nat): Print { Print(b.Content(k), b.Body(k)) }

  function HeadOf(b: Burst, got: set<nat>, k: nat): Option<Print> {
    if k in got && k <= b.Count() then Some(PrintOf(b, k)) else None
  }

  /** What a frame remembers after the packets in `got`. */
  function PrintsOf(b: Burst, got: set<nat>): Fingerprints {
    Fingerprints([HeadOf(b, got, 0), HeadOf(b, got, 1), HeadOf(b, got, 2), HeadOf(b, got, 3)],
                 if b.Last() in got then Some((b.Last(), PrintOf(b, b.Last()))) else None)
  }

  function FullPrints(b: Burst): Fingerprints { PrintsOf(b, Through(b.Last())) }

  lemma PrintsRecorded(b: Burst, got: set<nat>, view: View)
    requires b.Sends(view)
    ensures Recorded(PrintsOf(b, got), view) == PrintsOf(b, got + {view.packetId})
  {
    hide CutBlock, DivCeil, Through;
    var k := view.packetId;
    if k < b.Last() && k < 4 {
      assert PrintsOf(b, got).head[k := Some(PrintOf(b, k))] == PrintsOf(b, got + {k}).head;
    }
  }

  lemma PrintsNone(b: Burst)
    ensures PrintsOf(b, {}) == NoPrints
  {
  }

  /** Packet `k` of burst `b` differs from the one the reference remembers there. */
  predicate Contradicts(ref: Fingerprints, b: Burst, k: nat) {
    Diverges(ref, View(0, b.extended, b.id, k, b.Content(k), b.Body(k)))
  }

  lemma SentContradicts(ref: Fingerprints, b: Burst, view: View)
    requires b.Sends(view)
    ensures Diverges(ref, view) <==> Contradicts(ref, b, view.packetId)
  {
    hide CutBlock, DivCeil;
  }

  /** Packet `k` of burst `b` shows that it is not a copy of `past`, of which the
      packets in `got` were received. */
  predicate Tells(past: Burst, got: set<nat>, b: Burst, k: nat)
    requires k <= b.Last()
  {
    if k == b.Last() then past.Last() in got && (b.Last() != past.Last() || b.trailer != past.trailer)
    else k < FINGERPRINTED_PACKETS && k in got && k <= past.Count() && b.Body(k) != past.Body(k)
  }

  lemma ContradictsWhenTells(past: Burst, got: set<nat>, b: Burst, k: nat)
    requires k <= b.Last()
    ensures Contradicts(PrintsOf(past, got), b, k) <==> Tells(past, got, b, k)
  {
    hide CutBlock, DivCeil;
    if k < b.Last() && k < 4 { assert PrintsOf(past, got).head[k] == HeadOf(past, got, k); }
  }

  /** No packet of a burst contradicts what the burst itself left behind. */
  lemma OwnPrints(b: Burst, view: View)
    requires b.Sends(view)
    ensures !Diverges(FullPrints(b), view)
  {
    hide CutBlock, DivCeil, Contradicts, PrintsOf;
    SentContradicts(FullPrints(b), b, view);
    ContradictsWhenTells(b, Through(b.Last()), b, view.packetId);
  }
}
