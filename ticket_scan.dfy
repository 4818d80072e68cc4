/**
 * The decision part of the `for (let ticket of tickets)` loop of
 * `fetchJiraTickets`: which tickets get enriched, and with which address.
 * The loop awaits each enrichment before it moves on, so the enrichments
 * happen one at a time in the order of the search result.
 */
module TicketScan {
  import opened Wrappers
  import opened JsText
  import opened IPv4

  /** An issue of the search result: its `key` and its `fields.summary`. */
  datatype Ticket = Ticket(key: string, summary: string)

  /** A call `enrichTicketWithAbuseIPDB(ticketId, ip)` made by the loop. */
  datatype Enrichment = Enrichment(key: string, ip: string)

  /**
   * The body of the loop for one ticket: no call when the summary has no
   * match, and otherwise one call with the ticket's key and the leftmost match.
   */
  function EnrichmentOf(t: Ticket): (r: Option<Enrichment>)
    ensures r.None? <==> forall i: nat, j: nat :: !MatchAt(t.summary, i, j)
    ensures r.Some? ==> r.value.key == t.key
    ensures r.Some? ==> exists i: nat, j: nat :: IsFirstMatch(t.summary, i, j) && r.value.ip == t.summary[i..j]
  {
    match ExtractFirstIPv4(t.summary)
    case None => None
    case Some(ip) => Some(Enrichment(t.key, ip))
  }

  /** The enrichments the loop makes over the tickets, in the order it makes them. */
  function ScanTickets(tickets: seq<Ticket>): (r: seq<Enrichment>)
    ensures |r| <= |tickets|
  {
    FilterMap(tickets, EnrichmentOf)
  }

  /**
   * A ticket on its own is enriched exactly when its summary has a match,
   * and then once, with its key and its leftmost match.
   */
  lemma ScanOne(t: Ticket)
    ensures ScanTickets([t]) == [] <==> forall i: nat, j: nat :: !MatchAt(t.summary, i, j)
    ensures forall i: nat, j: nat :: IsFirstMatch(t.summary, i, j) ==> ScanTickets([t]) == [Enrichment(t.key, t.summary[i..j])]
  {
    assert [t][1..] == [];
    forall i: nat, j: nat | IsFirstMatch(t.summary, i, j) ensures ScanTickets([t]) == [Enrichment(t.key, t.summary[i..j])] {
      FirstMatchExtracted(t.summary, i, j);
    }
  }

  /** Scanning two lists of tickets one after the other gives the two scans one after the other. */
  lemma ScanAppend(a: seq<Ticket>, b: seq<Ticket>)
    ensures ScanTickets(a + b) == ScanTickets(a) + ScanTickets(b)
  {
    FilterMapAppend(a, b, EnrichmentOf);
  }

  /**
   * The enrichments stand in one-to-one correspondence with the tickets whose
   * summary has a match, in the order of the tickets: enrichment `m` comes
   * from ticket `idx[m]`, the positions `idx` increase, and every ticket with
   * a match has one.
   */
  lemma ScanFollowsTickets(tickets: seq<Ticket>) returns (idx: seq<nat>)
    ensures var r := ScanTickets(tickets);
      && |idx| == |r|
      && (forall m :: 0 <= m < |idx| ==> idx[m] < |tickets| && EnrichmentOf(tickets[idx[m]]) == Some(r[m]))
      && (forall m, m' :: 0 <= m < m' < |idx| ==> idx[m] < idx[m'])
      && (forall k :: 0 <= k < |tickets| && EnrichmentOf(tickets[k]).Some? ==> k in idx)
  {
    var keep := Defined(EnrichmentOf);
    idx := Kept(tickets, keep);
    FilterMapPicks(tickets, EnrichmentOf);
    KeptIncreasing(tickets, keep);
    KeptComplete(tickets, keep);
    forall k | 0 <= k < |tickets| && EnrichmentOf(tickets[k]).Some? ensures k in idx {
      assert keep(tickets[k]);
    }
  }
}
