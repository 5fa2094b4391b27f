/**
 * The healthy plugin's health summary: every configured URL is fetched,
 * judged by its status code, and the outcome reported as one line. Fetching
 * is an oracle: the model takes what each fetch gave, entry by entry, as a
 * parameter.
 */
module Healthy {
  import opened Text

  /** What fetching a URL gave: the request failed, reading the body failed, or a response with its status code. */
  datatype Fetch = RequestFailed | ReadFailed | Fetched(statusCode: int)

  /** Go's integer division, which truncates toward zero. */
  function Quo(a: int, b: int): int
    requires b != 0
  {
    if (a < 0) == (b < 0) || a % b == 0 then a / b
    else if b > 0 then a / b + 1
    else a / b - 1
  }

  /** check: healthy only when the request and the body read succeed with a 2xx status. */
  function Check(f: Fetch): (ok: bool)
    ensures ok <==> f.Fetched? && 200 <= f.statusCode <= 299
  {
    match f
    case RequestFailed => false
    case ReadFailed => false
    case Fetched(code) => Quo(code, 100) == 2
  }

  /**
   * The URLs whose check fails, in input order, repeats kept. Each entry of
   * `urls` is fetched on its own, so `outcomes[i]` is what the fetch of
   * `urls[i]` gave, and a URL listed twice may pass once and fail once.
   */
  function Failed(urls: seq<string>, outcomes: seq<Fetch>): seq<string>
    requires |outcomes| == |urls|
  {
    if urls == [] then []
    else Failed(urls[..|urls| - 1], outcomes[..|urls| - 1])
         + (if Check(outcomes[|urls| - 1]) then [] else [urls[|urls| - 1]])
  }

  /** The positions where `u` is listed and its fetch failed the check. */
  function FailingEntries(urls: seq<string>, outcomes: seq<Fetch>, u: string): set<nat>
    requires |outcomes| == |urls|
  {
    set i: nat | i < |urls| && urls[i] == u && !Check(outcomes[i])
  }

  /** Listing one more entry adds its position exactly when it is `u` and fails. */
  lemma FailingEntriesStep(urls: seq<string>, outcomes: seq<Fetch>, u: string)
    requires |outcomes| == |urls| > 0
    ensures var n := |urls| - 1;
      n !in FailingEntries(urls[..n], outcomes[..n], u)
      && FailingEntries(urls, outcomes, u)
         == FailingEntries(urls[..n], outcomes[..n], u) + (if urls[n] == u && !Check(outcomes[n]) then {n} else {})
  {
    var n := |urls| - 1;
    var before := FailingEntries(urls[..n], outcomes[..n], u);
    var now := FailingEntries(urls, outcomes, u);
    forall i: nat
      ensures i in before <==> i in now && i < n
    {
      if i < n {
        assert urls[..n][i] == urls[i] && outcomes[..n][i] == outcomes[i];
      }
    }
  }

  /** A URL is reported as failed once for each of its entries whose check failed. */
  lemma {:induction false} FailedCounts(urls: seq<string>, outcomes: seq<Fetch>, u: string)
    requires |outcomes| == |urls|
    ensures multiset(Failed(urls, outcomes))[u] == |FailingEntries(urls, outcomes, u)|
  {
    if urls == [] {
      assert FailingEntries(urls, outcomes, u) == {};
    } else {
      var n := |urls| - 1;
      FailedCounts(urls[..n], outcomes[..n], u);
      FailingEntriesStep(urls, outcomes, u);
    }
  }

  /** The failed list is empty exactly when every entry checks out. */
  lemma AllGreenIffNoneFailed(urls: seq<string>, outcomes: seq<Fetch>)
    requires |outcomes| == |urls|
    ensures Failed(urls, outcomes) == [] <==> forall i :: 0 <= i < |urls| ==> Check(outcomes[i])
  {
    if Failed(urls, outcomes) == [] {
      forall i | 0 <= i < |urls|
        ensures Check(outcomes[i])
      {
        FailedCounts(urls, outcomes, urls[i]);
      }
    } else {
      var u := Failed(urls, outcomes)[0];
      FailedCounts(urls, outcomes, u);
      var i :| i in FailingEntries(urls, outcomes, u);
    }
  }

  /**
   * CheckAll: check each entry in order, remembering the latest outcome per
   * URL, then report all green or list the failures.
   */
  method CheckAll(urls: seq<string>, outcomes: seq<Fetch>) returns (summary: string)
    requires |outcomes| == |urls|
    ensures (forall i :: 0 <= i < |urls| ==> Check(outcomes[i])) ==>
              summary == "All green (For " + Join(urls, ", ") + ")"
    ensures (exists i :: 0 <= i < |urls| && !Check(outcomes[i])) ==>
              summary == "WARN!! Something wrong with " + Join(Failed(urls, outcomes), ", ")
  {
    var result: map<string, bool> := map[];
    var failed: seq<string> := [];
    for i := 0 to |urls|
      invariant failed == Failed(urls[..i], outcomes[..i])
      invariant forall u :: u in result <==> u in urls[..i]
      invariant forall u :: u in result ==>
                  exists j :: 0 <= j < i && urls[j] == u && result[u] == Check(outcomes[j])
                              && forall k :: j < k < i ==> urls[k] != u
    {
      assert urls[..i + 1][..i] == urls[..i];
      assert outcomes[..i + 1][..i] == outcomes[..i];
      var ok := Check(outcomes[i]);
      result := result[urls[i] := ok];
      if !ok {
        failed := failed + [urls[i]];
      }
    }
    assert urls[..|urls|] == urls;
    assert outcomes[..|urls|] == outcomes;
    AllGreenIffNoneFailed(urls, outcomes);
    if |failed| == 0 {
      summary := "All green (For " + Join(urls, ", ") + ")";
    } else {
      summary := "WARN!! Something wrong with " + Join(failed, ", ");
    }
  }
}
