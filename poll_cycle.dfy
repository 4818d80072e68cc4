/**
 * One run of `fetchJiraTickets` put together from its parts: the tickets the
 * search returned (or nothing, when the request failed), the scan for
 * addresses, the AbuseIPDB lookup of each address (or nothing, when that
 * request failed), and the comment posted for each successful lookup.
 * Both kinds of request are parameters: the search result as an `Option`,
 * and the lookups as `responses`, where `responses(n)` is the answer to the
 * `n`-th AbuseIPDB request of the poll. Every request has its own answer, so
 * two requests for the same address may fail and succeed, or see different
 * records.
 */
module PollCycle {
  import opened Wrappers
  import opened JsText
  import opened IPv4
  import opened CommentDoc
  import opened ReputationComment
  import opened TicketScan

  /** `POST /rest/api/3/issue/{ticketId}/comment` with `{body}`. */
  datatype CommentPost = CommentPost(key: string, body: Doc)

  /**
   * The AbuseIPDB requests of one poll, in the order the loop sends them:
   * one per enrichment, numbered from 0.
   */
  function Requests(es: seq<Enrichment>): (calls: seq<(nat, Enrichment)>)
    ensures |calls| == |es|
    ensures forall n :: 0 <= n < |calls| ==> calls[n].0 == n && calls[n].1 == es[n]
  {
    seq(|es|, n requires 0 <= n < |es| => (n, es[n]))
  }

  /**
   * `enrichTicketWithAbuseIPDB` for request `n` and its enrichment: no comment
   * when the request failed (the error is caught and logged), and otherwise
   * the rendered comment converted to a document.
   */
  function PostFor(responses: nat -> Option<Reputation>): ((nat, Enrichment)) -> Option<CommentPost>
  {
    (call: (nat, Enrichment)) => match responses(call.0)
      case None => None
      case Some(rep) => Some(CommentPost(call.1.key, BuildCommentDoc(RenderComment(call.1.ip, rep))))
  }

  /** The comments one poll posts, in the order it posts them. */
  function PollOnce(fetched: Option<seq<Ticket>>, responses: nat -> Option<Reputation>): (posts: seq<CommentPost>)
    ensures fetched.None? ==> posts == []
    ensures fetched.Some? ==> |posts| <= |ScanTickets(fetched.value)|
  {
    match fetched
    case None => []
    case Some(tickets) => FilterMap(Requests(ScanTickets(tickets)), PostFor(responses))
  }

  /**
   * The comments stand in one-to-one correspondence with the requests that
   * succeeded, in order: comment `m` answers request `idx[m]`, goes to the
   * ticket of enrichment `idx[m]` and holds the document for its address and
   * the record of that request's answer; the positions `idx` increase, and
   * every request that succeeded has a comment.
   */
  lemma PollFollowsEnrichments(tickets: seq<Ticket>, responses: nat -> Option<Reputation>) returns (idx: seq<nat>)
    ensures var es, posts := ScanTickets(tickets), PollOnce(Some(tickets), responses);
      && |idx| == |posts|
      && (forall m :: 0 <= m < |idx| ==>
            && idx[m] < |es| && responses(idx[m]).Some?
            && posts[m] == CommentPost(es[idx[m]].key, BuildCommentDoc(RenderComment(es[idx[m]].ip, responses(idx[m]).value))))
      && (forall m, m' :: 0 <= m < m' < |idx| ==> idx[m] < idx[m'])
      && (forall k :: 0 <= k < |es| && responses(k).Some? ==> k in idx)
  {
    var calls := Requests(ScanTickets(tickets));
    var post := PostFor(responses);
    var keep := Defined(post);
    idx := Kept(calls, keep);
    FilterMapPicks(calls, post);
    KeptIncreasing(calls, keep);
    KeptComplete(calls, keep);
    forall k | 0 <= k < |calls| && responses(k).Some? ensures k in idx {
      assert keep(calls[k]);
    }
  }

  /** An address made of digits and dots is its own `trim` and has no line break. */
  lemma AddressTrimmed(ip: string)
    requires ip != [] && IsDigit(ip[0]) && IsDigit(ip[|ip| - 1])
    requires forall q :: 0 <= q < |ip| ==> IsDigit(ip[q]) || ip[q] == '.'
    ensures Trim(ip) == ip && '\n' !in ip
  {
    TrimOfTrimmed(ip);
  }

  /**
   * The comment for a ticket whose summary has an address shows that
   * address exactly, and the record's fields trimmed, under the six labels
   * in order, provided no text field of the record has a line break.
   */
  lemma PostedDocument(t: Ticket, rep: Reputation)
    requires '\n' !in rep.isp && '\n' !in rep.domain && '\n' !in rep.countryCode
    ensures EnrichmentOf(t).Some? ==>
      var ip := EnrichmentOf(t).value.ip;
      BuildCommentDoc(RenderComment(ip, rep)) == Doc("doc", 1, [
        LabeledParagraph("IP Address", ip),
        LabeledParagraph("Abuse Confidence Score", Decimal(rep.abuseConfidenceScore)),
        LabeledParagraph("ISP", Trim(rep.isp)),
        LabeledParagraph("Domain", Trim(rep.domain)),
        LabeledParagraph("Country", Trim(rep.countryCode)),
        LabeledParagraph("Total Reports", Decimal(rep.totalReports))])
  {
    if EnrichmentOf(t).Some? {
      var ip := EnrichmentOf(t).value.ip;
      ExtractedAddressChars(t.summary);
      AddressTrimmed(ip);
      TemplateThenParse(ip, rep);
    }
  }
}
