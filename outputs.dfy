/**
 * The part of `deploy_dremio` that runs once the CloudFormation stack is
 * complete: the stack outputs are sorted by key in place, one of the first
 * two is chosen by the `private` flag, and the host and the gateway
 * instance id are cut out of its URL, which has the shape
 * `http://<host>/<query>=<instance id>`.
 */
module Outputs {
  import opened Common
  import opened Text

  datatype Output = Output(key: string, value: string)

  /** The URL, host and instance id that `deploy_dremio` returns as `[host, instance_id, init_url]`. */
  datatype Deployment = Deployment(host: string, instanceId: string, initUrl: string)

  /** Neighbours in `s[lo..hi]` are in key order. */
  predicate SortedBetween(s: seq<Output>, lo: int, hi: int)
    requires 0 <= lo <= hi <= |s|
  {
    forall i :: lo < i < hi ==> LessOrEqual(s[i - 1].key, s[i].key)
  }

  predicate SortedByKey(s: seq<Output>)
  {
    SortedBetween(s, 0, |s|)
  }

  /** `outputs.sort(key=lambda attr: attr['OutputKey'])`, as an insertion sort. */
  method SortByKey(a: array<Output>)
    modifies a
    ensures SortedByKey(a[..])
    ensures multiset(a[..]) == multiset(old(a[..]))
  {
    if a.Length == 0 {
      return;
    }
    for i := 1 to a.Length
      invariant SortedBetween(a[..], 0, i)
      invariant multiset(a[..]) == multiset(old(a[..]))
    {
      InsertAt(a, i);
    }
  }

  /** Moves `a[i]` left past every larger key, extending the sorted prefix by one. */
  method InsertAt(a: array<Output>, i: nat)
    requires i < a.Length
    requires SortedBetween(a[..], 0, i)
    modifies a
    ensures SortedBetween(a[..], 0, i + 1)
    ensures multiset(a[..]) == multiset(old(a[..]))
    ensures a[i + 1..] == old(a[i + 1..])
  {
    var j := i;
    while j > 0 && Less(a[j].key, a[j - 1].key)
      invariant 0 <= j <= i
      invariant a[i + 1..] == old(a[i + 1..])
      invariant SortedBetween(a[..], 0, j)
      invariant SortedBetween(a[..], j, i + 1)
      invariant 0 < j < i ==> LessOrEqual(a[j - 1].key, a[j + 1].key)
      invariant multiset(a[..]) == multiset(old(a[..]))
    {
      SwapDown(a, j, i);
      j := j - 1;
    }
    if j > 0 {
      LessTotal(a[j].key, a[j - 1].key);
    }
  }

  /** One step of the insertion: swaps `a[j - 1]` and `a[j]`. */
  method SwapDown(a: array<Output>, j: nat, i: nat)
    requires 0 < j <= i < a.Length
    requires Less(a[j].key, a[j - 1].key)
    requires SortedBetween(a[..], 0, j)
    requires SortedBetween(a[..], j, i + 1)
    requires j < i ==> LessOrEqual(a[j - 1].key, a[j + 1].key)
    modifies a
    ensures SortedBetween(a[..], 0, j - 1)
    ensures SortedBetween(a[..], j - 1, i + 1)
    ensures 0 < j - 1 < i ==> LessOrEqual(a[j - 2].key, a[j].key)
    ensures multiset(a[..]) == multiset(old(a[..]))
    ensures a[..] == old(a[..])[j - 1 := old(a[j])][j := old(a[j - 1])]
  {
    a[j - 1], a[j] := a[j], a[j - 1];
  }

  /** Index of the output `deploy_dremio` uses: 0 for a private deployment, 1 otherwise. */
  function OutputIndex(private: bool): nat
  {
    if private then 0 else 1
  }

  /**
   * `tmp = init_url.split("/")`, `host = tmp[2]`,
   * `instance_id = tmp[3].split("=")[1]`, with the `IndexError` a short URL raises.
   */
  function ParseInitUrl(url: string): (r: Result<Deployment>)
    ensures r.Ok? ==> r.value.initUrl == url
    ensures r.Ok? ==> '/' !in r.value.host && '/' !in r.value.instanceId && '=' !in r.value.instanceId
    ensures r.Err? ==> r.error == IndexError
    ensures r.Err? <==> |Split(url, '/')| < 4 || '=' !in Split(url, '/')[3]
  {
    var parts := Split(url, '/');
    if |parts| < 4 then Err(IndexError)
    else
      var query := Split(parts[3], '=');
      SplitKeepsAbsent(parts[3], '=', '/');
      SplitHasSeveralPieces(parts[3], '=');
      if |query| < 2 then Err(IndexError)
      else Ok(Deployment(parts[2], query[1], url))
  }

  /** The result of `deploy_dremio` for outputs already sorted by key. */
  function SelectDeployment(sorted: seq<Output>, private: bool): (r: Result<Deployment>)
    ensures OutputIndex(private) >= |sorted| ==> r == Err(IndexError)
    ensures OutputIndex(private) < |sorted| ==> r == ParseInitUrl(sorted[OutputIndex(private)].value)
    ensures r.Ok? ==> r.value.initUrl == sorted[OutputIndex(private)].value
  {
    if OutputIndex(private) < |sorted| then ParseInitUrl(sorted[OutputIndex(private)].value)
    else Err(IndexError)
  }

  /** The post-deployment part of `deploy_dremio`: sorts the outputs in place, then selects and parses. */
  method DeployOutputs(outputs: array<Output>, private: bool) returns (r: Result<Deployment>)
    modifies outputs
    ensures SortedByKey(outputs[..])
    ensures multiset(outputs[..]) == multiset(old(outputs[..]))
    ensures r == SelectDeployment(outputs[..], private)
  {
    SortByKey(outputs);
    var index := OutputIndex(private);
    if index >= outputs.Length {
      return Err(IndexError);
    }
    var initUrl := outputs[index].value;
    var tmp := Split(initUrl, '/');
    if |tmp| < 4 {
      return Err(IndexError);
    }
    var query := Split(tmp[3], '=');
    if |query| < 2 {
      return Err(IndexError);
    }
    r := Ok(Deployment(tmp[2], query[1], initUrl));
  }

  /** The shape of the URLs the stack publishes: `<scheme>//<host>/<query>=<instance id>`. */
  function BuildUrl(scheme: string, host: string, query: string, id: string): string
  {
    scheme + "//" + host + "/" + query + "=" + id
  }

  /**
   * A URL of the shape the stack publishes parses back into the host and
   * instance id it was built from.
   */
  lemma ParseBuiltUrl(scheme: string, host: string, query: string, id: string)
    requires '/' !in scheme && '/' !in host && '/' !in query && '/' !in id
    requires '=' !in query && '=' !in id
    ensures ParseInitUrl(BuildUrl(scheme, host, query, id))
         == Ok(Deployment(host, id, BuildUrl(scheme, host, query, id)))
  {
    var tail := query + ['='] + id;
    var url := BuildUrl(scheme, host, query, id);
    assert url == scheme + "//" + host + "/" + tail;
    SplitBuiltUrl(scheme, host, tail);
    assert Split(url, '/')[3] == tail;
    SplitAtFirst(query, '=', id);
    SplitWithoutSeparator(id, '=');
    assert Split(tail, '=') == [query, id];
  }

  lemma SplitBuiltUrl(scheme: string, host: string, tail: string)
    requires '/' !in scheme && '/' !in host && '/' !in tail
    ensures Split(scheme + "//" + host + "/" + tail, '/') == [scheme, "", host, tail]
  {
    var rest := host + ['/'] + tail;
    assert scheme + "//" + host + "/" + tail == scheme + ['/'] + ([] + ['/'] + rest);
    SplitAtFirst(scheme, '/', [] + ['/'] + rest);
    SplitAtFirst([], '/', rest);
    SplitAtFirst(host, '/', tail);
    SplitWithoutSeparator(tail, '/');
  }

  /** In a list sorted by key the first output has the least key. */
  lemma {:induction false} SortedHeadIsLeast(s: seq<Output>, k: nat)
    requires SortedByKey(s)
    requires k < |s|
    ensures LessOrEqual(s[0].key, s[k].key)
  {
    if k > 0 {
      SortedHeadIsLeast(s, k - 1);
      LessOrEqualTransitive(s[0].key, s[k - 1].key, s[k].key);
    }
  }

  /**
   * A private deployment takes its URL from the output whose key is least
   * among all outputs of the stack.
   */
  lemma PrivateSelectsLeastKey(outputs: seq<Output>, sorted: seq<Output>, o: Output)
    requires SortedByKey(sorted) && multiset(sorted) == multiset(outputs)
    requires o in outputs
    requires SelectDeployment(sorted, true).Ok?
    ensures LessOrEqual(sorted[0].key, o.key)
    ensures SelectDeployment(sorted, true).value.initUrl == sorted[0].value
  {
    assert o in multiset(outputs);
    assert o in sorted;
    var k :| 0 <= k < |sorted| && sorted[k] == o;
    SortedHeadIsLeast(sorted, k);
  }

  /**
   * With the two outputs a stack publishes, under distinct keys, the private
   * flag picks the one with the smaller key and its absence the other.
   */
  lemma TwoOutputsSelection(outputs: seq<Output>, sorted: seq<Output>, private: bool)
    requires |outputs| == 2 && outputs[0].key != outputs[1].key
    requires SortedByKey(sorted) && multiset(sorted) == multiset(outputs)
    ensures |sorted| == 2
    ensures var first := if Less(outputs[0].key, outputs[1].key) then 0 else 1;
            sorted[OutputIndex(private)] == outputs[if private then first else 1 - first]
  {
    assert |multiset(sorted)| == |multiset(outputs)|;
    assert outputs == [outputs[0], outputs[1]];
    assert sorted == [sorted[0], sorted[1]];
    assert sorted[0] in multiset(outputs) && sorted[1] in multiset(outputs);
    assert multiset(outputs) == multiset{outputs[0], outputs[1]};
    assert multiset(sorted) == multiset{sorted[0], sorted[1]};
    assert multiset(outputs)[sorted[0]] <= 1;
    assert sorted[0] != sorted[1];
    LessAsymmetric(outputs[0].key, outputs[1].key);
    LessTotal(outputs[0].key, outputs[1].key);
  }
}
