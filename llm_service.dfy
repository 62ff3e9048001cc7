/** The result-combination logic of the reasoning service client. Each call
    to the service is a parameter: given the chunk it is asked about, it
    yields the reply that parsed, a reply that did not parse, or a failed
    call. Whether an API key is configured is a boolean parameter. */
module LlmService {
  import opened Wrappers
  import opened Json
  import opened TextChunking

  /** What one request to the reasoning service gives back. */
  datatype Reply = Parsed(value: Json) | Unparseable | CallFailed

  // ---------------------------------------------------------------------
  // Fallback extraction
  // ---------------------------------------------------------------------

  /** The placeholder `_fallback_extraction` puts under a schema key. */
  function FallbackValue(v: Json): Json {
    match v
    case JObj(_) => JObj(map[])
    case JList(_) => JList([])
    case _ => JNull
  }

  function Fallback(schema: map<string, Json>): map<string, Json> {
    map k | k in schema :: FallbackValue(schema[k])
  }

  /** `_fallback_extraction(text, schema)`: exactly the schema's keys, with an
      empty dictionary, an empty list or `None` by the kind of schema value. */
  method FallbackExtraction(text: string, schema: map<string, Json>) returns (result: map<string, Json>)
    ensures result.Keys == schema.Keys
    ensures forall k :: k in result ==>
              && (schema[k].JObj? ==> result[k] == JObj(map[]))
              && (schema[k].JList? ==> result[k] == JList([]))
              && (!schema[k].JObj? && !schema[k].JList? ==> result[k] == JNull)
    ensures result == Fallback(schema)
  {
    result := map[];
    var keys := schema.Keys;
    while keys != {}
      invariant keys <= schema.Keys
      invariant result.Keys == schema.Keys - keys
      invariant forall k :: k in result ==> result[k] == FallbackValue(schema[k])
      decreases keys
    {
      var key :| key in keys;
      if schema[key].JObj? {
        result := result[key := JObj(map[])];
      } else if schema[key].JList? {
        result := result[key := JList([])];
      } else {
        result := result[key := JNull];
      }
      keys := keys - {key};
    }
    assert result.Keys == Fallback(schema).Keys;
  }

  // ---------------------------------------------------------------------
  // Merging extraction results
  // ---------------------------------------------------------------------

  /** How a later chunk's value `v` for a key already in the merged result
      combines with the value there: lists concatenate, dictionaries are
      updated, `None` and `""` are overwritten, anything else stays. */
  function MergeValue(acc: Json, v: Json): Json {
    if acc.JList? && v.JList? then JList(acc.items + v.items)
    else if acc.JObj? && v.JObj? then JObj(acc.fields + v.fields)
    else if acc == JNull || acc == JStr("") then v
    else acc
  }

  /** The merged result after one later chunk's result. */
  function MergeInto(acc: map<string, Json>, r: map<string, Json>): map<string, Json> {
    map k | k in acc.Keys + r.Keys ::
      if k !in acc then r[k] else if k in r then MergeValue(acc[k], r[k]) else acc[k]
  }

  /** The left fold `_merge_extraction_results` performs over a non-empty list. */
  function MergeAll(results: seq<map<string, Json>>): map<string, Json>
    requires results != []
  {
    if |results| == 1 then results[0]
    else MergeInto(MergeAll(results[..|results| - 1]), results[|results| - 1])
  }

  /** The inner loop of `_merge_extraction_results` over one result's items. */
  method MergeResultInto(merged: map<string, Json>, result: map<string, Json>) returns (merged': map<string, Json>)
    ensures merged' == MergeInto(merged, result)
  {
    merged' := merged;
    var keys := result.Keys;
    while keys != {}
      invariant keys <= result.Keys
      invariant merged'.Keys == merged.Keys + (result.Keys - keys)
      invariant forall k :: k in merged' ==>
                  merged'[k] == if k in result && k !in keys then MergeInto(merged, result)[k] else merged[k]
      decreases keys
    {
      var key :| key in keys;
      var value := result[key];
      if key !in merged' {
        merged' := merged'[key := value];
      } else if merged'[key].JList? && value.JList? {
        merged' := merged'[key := JList(merged'[key].items + value.items)];
      } else if merged'[key].JObj? && value.JObj? {
        merged' := merged'[key := JObj(merged'[key].fields + value.fields)];
      } else if merged'[key] == JNull || merged'[key] == JStr("") {
        merged' := merged'[key := value];
      }
      keys := keys - {key};
    }
    assert merged'.Keys == MergeInto(merged, result).Keys;
  }

  /** `_merge_extraction_results(results, schema)`. */
  method MergeExtractionResults(results: seq<map<string, Json>>, schema: map<string, Json>)
    returns (merged: map<string, Json>)
    ensures results == [] ==> merged == Fallback(schema)
    ensures results != [] ==> merged == MergeAll(results)
    ensures |results| == 1 ==> merged == results[0]
  {
    if results == [] {
      merged := FallbackExtraction("", schema);
      return;
    }
    merged := results[0];
    var i := 1;
    while i < |results|
      invariant 1 <= i <= |results|
      invariant merged == MergeAll(results[..i])
    {
      assert results[..i + 1][..i] == results[..i];
      merged := MergeResultInto(merged, results[i]);
      i := i + 1;
    }
    assert results[..i] == results;
  }

  /** The merged key set is the union of the results' key sets. */
  lemma {:induction false} MergeAllKeys(results: seq<map<string, Json>>)
    requires results != []
    ensures forall k :: k in MergeAll(results) <==> exists i :: 0 <= i < |results| && k in results[i]
  {
    if |results| > 1 {
      var pre: seq<map<string, Json>> := results[..|results| - 1];
      MergeAllKeys(pre);
      forall k | k in MergeAll(results)
        ensures exists i :: 0 <= i < |results| && k in results[i]
      {
        if k in MergeAll(pre) {
          var i :| 0 <= i < |pre| && k in pre[i];
          assert results[i] == pre[i];
        } else {
          assert k in results[|results| - 1];
        }
      }
      forall k | exists i :: 0 <= i < |results| && k in results[i]
        ensures k in MergeAll(results)
      {
        var i :| 0 <= i < |results| && k in results[i];
        if i < |pre| {
          assert pre[i] == results[i];
        }
      }
    }
  }

  /** The items of every list value that `key` has in `results`, in order. */
  function ListsAt(results: seq<map<string, Json>>, key: string): seq<Json> {
    if results == [] then []
    else
      var last := results[|results| - 1];
      ListsAt(results[..|results| - 1], key) + (if key in last && last[key].JList? then last[key].items else [])
  }

  lemma {:induction false} ListsAtAbsent(results: seq<map<string, Json>>, key: string)
    requires forall i :: 0 <= i < |results| ==> key !in results[i]
    ensures ListsAt(results, key) == []
  {
    if results != [] {
      ListsAtAbsent(results[..|results| - 1], key);
    }
  }

  /** When every value of `key` is a list, the merged value is all of their
      items concatenated, earlier results first. */
  lemma {:induction false} MergeAllLists(results: seq<map<string, Json>>, key: string)
    requires exists i :: 0 <= i < |results| && key in results[i]
    requires forall i :: 0 <= i < |results| && key in results[i] ==> results[i][key].JList?
    ensures key in MergeAll(results) && MergeAll(results)[key] == JList(ListsAt(results, key))
  {
    MergeAllKeys(results);
    if |results| > 1 {
      var pre: seq<map<string, Json>> := results[..|results| - 1];
      var last := results[|results| - 1];
      if exists i :: 0 <= i < |pre| && key in pre[i] {
        forall i: int | 0 <= i < |pre| && key in pre[i]
          ensures pre[i][key].JList?
        {
          assert pre[i] == results[i];
        }
        MergeAllLists(pre, key);
      } else {
        MergeAllKeys(pre);
        ListsAtAbsent(pre, key);
        assert key in last;
      }
    }
  }

  /** The fields of every dictionary value that `key` has in `results`, later
      results overriding earlier ones. */
  function FieldsAt(results: seq<map<string, Json>>, key: string): map<string, Json> {
    if results == [] then map[]
    else
      var last := results[|results| - 1];
      FieldsAt(results[..|results| - 1], key) + (if key in last && last[key].JObj? then last[key].fields else map[])
  }

  lemma {:induction false} FieldsAtAbsent(results: seq<map<string, Json>>, key: string)
    requires forall i :: 0 <= i < |results| ==> key !in results[i]
    ensures FieldsAt(results, key) == map[]
  {
    if results != [] {
      FieldsAtAbsent(results[..|results| - 1], key);
    }
  }

  /** When every value of `key` is a dictionary, the merged value is their
      union with the last write winning. */
  lemma {:induction false} MergeAllDicts(results: seq<map<string, Json>>, key: string)
    requires exists i :: 0 <= i < |results| && key in results[i]
    requires forall i :: 0 <= i < |results| && key in results[i] ==> results[i][key].JObj?
    ensures key in MergeAll(results) && MergeAll(results)[key] == JObj(FieldsAt(results, key))
  {
    MergeAllKeys(results);
    if |results| > 1 {
      var pre: seq<map<string, Json>> := results[..|results| - 1];
      var last := results[|results| - 1];
      if exists i :: 0 <= i < |pre| && key in pre[i] {
        forall i: int | 0 <= i < |pre| && key in pre[i]
          ensures pre[i][key].JObj?
        {
          assert pre[i] == results[i];
        }
        MergeAllDicts(pre, key);
      } else {
        MergeAllKeys(pre);
        FieldsAtAbsent(pre, key);
        assert key in last;
        assert map[] + last[key].fields == last[key].fields;
      }
    }
  }

  /** A value that no later chunk can change: not a list, not a dictionary,
      not `None` and not `""`. */
  predicate Settled(v: Json) {
    !v.JList? && !v.JObj? && v != JNull && v != JStr("")
  }

  /** The first result's settled value for a key survives the merge. */
  lemma {:induction false} MergeAllKeepsSettled(results: seq<map<string, Json>>, key: string)
    requires results != [] && key in results[0] && Settled(results[0][key])
    ensures key in MergeAll(results) && MergeAll(results)[key] == results[0][key]
  {
    if |results| > 1 {
      var pre: seq<map<string, Json>> := results[..|results| - 1];
      assert pre[0] == results[0];
      MergeAllKeepsSettled(pre, key);
    }
  }

  /** An unset (`None` or `""`) value is replaced by the next chunk's value. */
  lemma MergeFillsUnset(first: map<string, Json>, second: map<string, Json>, key: string)
    requires key in first && (first[key] == JNull || first[key] == JStr("")) && key in second
    ensures MergeAll([first, second])[key] == second[key]
  {
    assert [first, second][..1] == [first];
  }

  // ---------------------------------------------------------------------
  // Combining validation results
  // ---------------------------------------------------------------------

  /** What one chunk's validation result adds to the combined verdict. */
  datatype Contribution = Contribution(confidence: Option<real>, elements: seq<Json>,
                                       suggestions: seq<Json>, rejects: bool)

  /** The items `list.extend` takes from a value: a list's items, a string's
      characters; `None` for values it cannot extend by. */
  function ExtendItems(j: Json): (r: Option<seq<Json>>)
    ensures j.JList? ==> r == Some(j.items)
    ensures j.JStr? ==> r.Some? && |r.value| == |j.s|
    ensures !j.JList? && !j.JStr? ==> r.None?
  {
    match j
    case JList(xs) => Some(xs)
    case JStr(s) => Some(CharItems(s))
    case _ => None
  }

  /** The one-character strings iterating over a string yields. */
  function CharItems(s: string): (r: seq<Json>)
    ensures |r| == |s| && forall i :: 0 <= i < |s| ==> r[i] == JStr([s[i]])
  {
    seq(|s|, i requires 0 <= i < |s| => JStr([s[i]]))
  }

  const VerdictKeys: seq<string> := ["confidence", "elements", "suggestions", "validated"]

  /** The contribution of one result to the combined verdict, `None` when
      reading it raises. A dictionary contributes its keys; a list or string
      contributes nothing if none of the four keys is in it and raises on
      subscripting otherwise; on any other value `in` raises. */
  function ContributionOf(result: Json): Option<Contribution> {
    match result
    case JObj(m) =>
      if "confidence" in m && AsNumber(m["confidence"]).None? then None
      else if "elements" in m && ExtendItems(m["elements"]).None? then None
      else if "suggestions" in m && ExtendItems(m["suggestions"]).None? then None
      else Some(Contribution(
        if "confidence" in m then AsNumber(m["confidence"]) else None,
        if "elements" in m then ExtendItems(m["elements"]).value else [],
        if "suggestions" in m then ExtendItems(m["suggestions"]).value else [],
        "validated" in m && !Truthy(m["validated"])))
    case JList(_) =>
      if forall j | 0 <= j < |VerdictKeys| :: ContainsKey(result, VerdictKeys[j]) == Some(false)
      then Some(Contribution(None, [], [], false)) else None
    case JStr(_) =>
      if forall j | 0 <= j < |VerdictKeys| :: ContainsKey(result, VerdictKeys[j]) == Some(false)
      then Some(Contribution(None, [], [], false)) else None
    case _ => None
  }

  function SumConfidence(cs: seq<Contribution>): real {
    if cs == [] then 0.0
    else SumConfidence(cs[..|cs| - 1]) + cs[|cs| - 1].confidence.GetOr(0.0)
  }

  function AllElements(cs: seq<Contribution>): seq<Json> {
    if cs == [] then [] else AllElements(cs[..|cs| - 1]) + cs[|cs| - 1].elements
  }

  function AllSuggestions(cs: seq<Contribution>): seq<Json> {
    if cs == [] then [] else AllSuggestions(cs[..|cs| - 1]) + cs[|cs| - 1].suggestions
  }

  predicate SomeRejects(cs: seq<Contribution>) {
    exists i :: 0 <= i < |cs| && cs[i].rejects
  }

  /** The contributions of all results, `None` when any of them raises. */
  function Contributions(results: seq<Json>): (r: Option<seq<Contribution>>)
    ensures r.None? <==> exists i :: 0 <= i < |results| && ContributionOf(results[i]).None?
    ensures r.Some? ==> |r.value| == |results|
  {
    if results == [] then Some([])
    else
      var pre := Contributions(results[..|results| - 1]);
      var last := ContributionOf(results[|results| - 1]);
      assert forall i :: 0 <= i < |results| - 1 ==> results[..|results| - 1][i] == results[i];
      if pre.None? || last.None? then None else Some(pre.value + [last.value])
  }

  /** The combined verdict: `validated` is false exactly when some result has
      a falsy `validated`; `confidence` is the sum of the confidences present
      divided by the number of results; `elements` and `suggestions` are
      concatenated in result order. */
  function CombinedVerdict(cs: seq<Contribution>): map<string, Json> {
    map["validated" := JBool(!SomeRejects(cs)),
        "confidence" := JNum(if cs == [] then 0.0 else SumConfidence(cs) / (|cs| as real)),
        "elements" := JList(AllElements(cs)),
        "suggestions" := JList(AllSuggestions(cs))]
  }

  /** The running `confidence += c / n` of the loop. */
  function ScaledConfidence(cs: seq<Contribution>, n: real): real
    requires n > 0.0
  {
    if cs == [] then 0.0
    else
      var c := cs[|cs| - 1].confidence;
      ScaledConfidence(cs[..|cs| - 1], n) + (if c.Some? then c.value / n else 0.0)
  }

  /** Adding each confidence divided by `n` gives their sum divided by `n`. */
  lemma {:induction false} ScaledConfidenceIsAverage(cs: seq<Contribution>, n: real)
    requires n > 0.0
    ensures ScaledConfidence(cs, n) == SumConfidence(cs) / n
  {
    if cs != [] {
      ScaledConfidenceIsAverage(cs[..|cs| - 1], n);
      var a, b := SumConfidence(cs[..|cs| - 1]), cs[|cs| - 1].confidence.GetOr(0.0);
      assert (a + b) / n == a / n + b / n;
      assert cs[|cs| - 1].confidence.None? ==> b == 0.0 && (a + b) / n == a / n;
    }
  }

  /** How each accumulated part of the verdict grows by one contribution. */
  lemma AccumulateSnoc(cs: seq<Contribution>, c: Contribution)
    ensures AllElements(cs + [c]) == AllElements(cs) + c.elements
    ensures AllSuggestions(cs + [c]) == AllSuggestions(cs) + c.suggestions
    ensures SomeRejects(cs + [c]) <==> SomeRejects(cs) || c.rejects
  {
    assert (cs + [c])[..|cs|] == cs;
  }

  lemma ContributionsSnoc(results: seq<Json>, i: nat, cs: seq<Contribution>)
    requires i < |results| && Contributions(results[..i]) == Some(cs)
    ensures ContributionOf(results[i]).Some? ==> Contributions(results[..i + 1]) == Some(cs + [ContributionOf(results[i]).value])
    ensures ContributionOf(results[i]).None? ==> exists j :: 0 <= j < |results| && ContributionOf(results[j]).None?
  {
    assert results[..i + 1][..i] == results[..i];
  }

  /** What the loop has accumulated once every result has contributed. */
  lemma CombinedAfterLoop(cs: seq<Contribution>, n: real, validated: bool, confidence: real,
                          elements: seq<Json>, suggestions: seq<Json>)
    requires n == |cs| as real
    requires n > 0.0 ==> confidence == ScaledConfidence(cs, n)
    requires n == 0.0 ==> confidence == 0.0
    requires elements == AllElements(cs) && suggestions == AllSuggestions(cs)
    requires validated == !SomeRejects(cs)
    ensures map["validated" := JBool(validated), "confidence" := JNum(confidence),
                "elements" := JList(elements), "suggestions" := JList(suggestions)] == CombinedVerdict(cs)
  {
    if n > 0.0 {
      ScaledConfidenceIsAverage(cs, n);
    }
  }

  /** `result["confidence"] / len(validation_results)` when the result has
      a confidence, else nothing: what one result adds to the running average. */
  method ConfidenceShare(c: Contribution, n: real, ghost cs: seq<Contribution>) returns (share: real)
    requires n > 0.0
    ensures ScaledConfidence(cs + [c], n) == ScaledConfidence(cs, n) + share
  {
    share := if c.confidence.Some? then c.confidence.value / n else 0.0;
    assert (cs + [c])[..|cs|] == cs;
  }

  /** The merging loop of `validate_extraction`; `None` when it raises. */
  method CombineValidation(results: seq<Json>) returns (r: Option<map<string, Json>>)
    ensures r.None? <==> exists i :: 0 <= i < |results| && ContributionOf(results[i]).None?
    ensures r.Some? ==> r.value == CombinedVerdict(Contributions(results).value)
  {
    var validated := true;
    var confidence := 0.0;
    var elements: seq<Json> := [];
    var suggestions: seq<Json> := [];
    ghost var cs: seq<Contribution> := [];
    var n := |results| as real;
    var i := 0;
    while i < |results|
      invariant 0 <= i <= |results|
      invariant Contributions(results[..i]) == Some(cs)
      invariant n > 0.0 ==> confidence == ScaledConfidence(cs, n)
      invariant n == 0.0 ==> i == 0 && confidence == 0.0
      invariant elements == AllElements(cs) && suggestions == AllSuggestions(cs)
      invariant validated == !SomeRejects(cs)
    {
      var c := ContributionOf(results[i]);
      ContributionsSnoc(results, i, cs);
      if c.None? {
        assert ContributionOf(results[i]).None?;
        return None;
      }
      var k := c.value;
      AccumulateSnoc(cs, k);
      var share := ConfidenceShare(k, n, cs);
      confidence := confidence + share;
      elements := elements + k.elements;
      suggestions := suggestions + k.suggestions;
      validated := validated && !k.rejects;
      cs := cs + [k];
      i := i + 1;
    }
    assert results[..i] == results;
    CombinedAfterLoop(cs, n, validated, confidence, elements, suggestions);
    return Some(map["validated" := JBool(validated), "confidence" := JNum(confidence),
                    "elements" := JList(elements), "suggestions" := JList(suggestions)]);
  }

  /** `{"validated": True, "confidence": c, "suggestions": []}`. */
  function DefaultVerdict(confidence: real): map<string, Json> {
    map["validated" := JBool(true), "confidence" := JNum(confidence), "suggestions" := JList([])]
  }

  /** `extracted_data.get("elements", [])`, `None` when `extracted_data` is
      not a dictionary and `.get` raises. */
  function ElementsField(extractedData: Json): Option<Json> {
    if extractedData.JObj? then
      Some(if "elements" in extractedData.fields then extractedData.fields["elements"] else JList([]))
    else None
  }

  /** The result a parsed validation reply stands for. */
  function ValidationReplyValue(reply: Reply): Json
    requires !reply.CallFailed?
  {
    if reply.Parsed? then reply.value else JObj(DefaultVerdict(0.5))
  }

  /** A value `len()` accepts and `for` can iterate over. */
  predicate Sized(value: Json) {
    value.JList? || value.JStr? || value.JObj?
  }

  /** `items` are what `for element in value` visits: a list's items, a
      string's characters, a dictionary's keys. Dictionaries are unordered
      here, so the keys come in some order, each exactly once. */
  ghost predicate Iterates(value: Json, items: seq<Json>) {
    match value
    case JList(xs) => items == xs
    case JStr(s) => items == CharItems(s)
    case JObj(m) =>
      && |items| == |m|
      && (forall i :: 0 <= i < |items| ==> items[i].JStr? && items[i].s in m)
      && (forall k :: k in m ==> JStr(k) in items)
      && (forall i, j :: 0 <= i < j < |items| ==> items[i] != items[j])
    case _ => false
  }

  /** The iteration of a value `len()` accepts. */
  method IterationItems(value: Json) returns (items: seq<Json>)
    requires Sized(value)
    ensures Iterates(value, items)
  {
    match value
    case JList(xs) => items := xs;
    case JStr(s) => items := CharItems(s);
    case JObj(m) =>
      items := [];
      var keys := m.Keys;
      while keys != {}
        invariant keys <= m.Keys
        invariant |items| + |keys| == |m.Keys|
        invariant forall i :: 0 <= i < |items| ==> items[i].JStr? && items[i].s in m && items[i].s !in keys
        invariant forall k :: k in m ==> k in keys || JStr(k) in items
        invariant forall i, j :: 0 <= i < j < |items| ==> items[i] != items[j]
        decreases keys
      {
        var k :| k in keys;
        items := items + [JStr(k)];
        keys := keys - {k};
      }
      assert |m.Keys| == |m|;
  }

  /** What each validation request is about: the value itself when its
      `len()` is within twenty, so that `chunk_elements` returns `[value]`,
      otherwise the chunks of its items as lists. */
  function Requests(value: Json, items: seq<Json>, chunks: seq<seq<Json>>): (r: seq<Json>)
    ensures |items| <= 20 ==> r == [value]
    ensures |items| > 20 ==> |r| == |chunks| && forall i :: 0 <= i < |chunks| ==> r[i] == JList(chunks[i])
  {
    if |items| <= 20 then [value] else seq(|chunks|, i requires 0 <= i < |chunks| => JList(chunks[i]))
  }

  /** The verdict the service's replies to `requests` add up to: the default
      when a call fails or the combination raises, the combined verdict
      otherwise. */
  function ValidationOf(requests: seq<Json>, ask: (Json, nat) -> Reply): map<string, Json> {
    if exists i :: 0 <= i < |requests| && ask(requests[i], i).CallFailed? then DefaultVerdict(0.8)
    else
      var results := seq(|requests|, i requires 0 <= i < |requests| => ValidationReplyValue(ask(requests[i], i)));
      if Contributions(results).None? then DefaultVerdict(0.8) else CombinedVerdict(Contributions(results).value)
  }

  /** `validate_extraction(text, extracted_data)`. The text only goes into the
      prompt, so it plays no part here; `ask(request, i)` is the reply about
      the `i`-th request. `items` are the elements as `chunk_elements`
      iterates them and `chunks` what it makes of them. */
  method ValidateExtraction(hasApiKey: bool, text: string, extractedData: Json, ask: (Json, nat) -> Reply)
    returns (verdict: map<string, Json>, ghost items: seq<Json>, ghost chunks: seq<seq<Json>>)
    ensures !hasApiKey ==> verdict == DefaultVerdict(0.8)
    ensures ElementsField(extractedData).None? ==> verdict == DefaultVerdict(0.8)
    ensures ElementsField(extractedData).Some? && !Truthy(ElementsField(extractedData).value) ==>
              verdict == DefaultVerdict(0.8)
    ensures ElementsField(extractedData).Some? && !Sized(ElementsField(extractedData).value) ==>
              verdict == DefaultVerdict(0.8)
    ensures hasApiKey && ElementsField(extractedData).Some? && Truthy(ElementsField(extractedData).value)
            && Sized(ElementsField(extractedData).value) ==>
              var elements := ElementsField(extractedData).value;
              && Iterates(elements, items)
              && ElementChunks(items, 20, chunks)
              && verdict == ValidationOf(Requests(elements, items, chunks), ask)
  {
    items, chunks := [], [];
    if !hasApiKey {
      return DefaultVerdict(0.8), items, chunks;
    }
    var field := ElementsField(extractedData);
    if field.None? || !Truthy(field.value) || !Sized(field.value) {
      return DefaultVerdict(0.8), items, chunks;
    }
    var elementItems := IterationItems(field.value);
    items := elementItems;
    var elementChunks := ChunkElements(elementItems, 20);
    chunks := elementChunks;
    verdict := ValidateRequests(Requests(field.value, elementItems, elementChunks), ask);
  }

  /** The requests to the service, one after the other, and the merging of
      their replies. */
  method ValidateRequests(requests: seq<Json>, ask: (Json, nat) -> Reply) returns (verdict: map<string, Json>)
    ensures verdict == ValidationOf(requests, ask)
  {
    var results: seq<Json> := [];
    var i := 0;
    while i < |requests|
      invariant 0 <= i <= |requests|
      invariant forall j :: 0 <= j < i ==> !ask(requests[j], j).CallFailed?
      invariant results == seq(i, j requires 0 <= j < i => ValidationReplyValue(ask(requests[j], j)))
    {
      var reply := ask(requests[i], i);
      if reply.CallFailed? {
        return DefaultVerdict(0.8);
      }
      results := results + [ValidationReplyValue(reply)];
      i := i + 1;
    }
    var combined := CombineValidation(results);
    verdict := if combined.None? then DefaultVerdict(0.8) else combined.value;
  }

  // ---------------------------------------------------------------------
  // Structure enhancement
  // ---------------------------------------------------------------------

  /** A reply that leaves its chunk as it was: one that did not parse, or
      parsed to something that is neither a list nor a dictionary with
      `"elements"`. */
  predicate PassThrough(reply: Reply) {
    reply.Unparseable?
    || (reply.Parsed? && !reply.value.JList? && !(reply.value.JObj? && "elements" in reply.value.fields))
  }

  /** What one structure reply stands for; `None` when the call raised. */
  function InterpretStructureReply(reply: Reply, chunk: seq<Json>): (r: Option<Json>)
    ensures r.None? <==> reply.CallFailed?
    ensures PassThrough(reply) ==> r == Some(JList(chunk))
    ensures reply.Parsed? && reply.value.JList? ==> r == Some(reply.value)
    ensures reply.Parsed? && reply.value.JObj? && "elements" in reply.value.fields ==>
              r == Some(reply.value.fields["elements"])
  {
    match reply
    case CallFailed => None
    case Unparseable => Some(JList(chunk))
    case Parsed(v) =>
      if v.JList? then Some(v)
      else if v.JObj? && "elements" in v.fields then Some(v.fields["elements"])
      else Some(JList(chunk))
  }

  /** The items of the list values among `xs`, in order; other values are skipped. */
  function ConcatLists(xs: seq<Json>): seq<Json> {
    if xs == [] then []
    else ConcatLists(xs[..|xs| - 1]) + (if xs[|xs| - 1].JList? then xs[|xs| - 1].items else [])
  }

  /** Concatenating the chunks put back as lists gives the flattened chunks. */
  lemma {:induction false} ConcatListsOfChunks(chunks: seq<seq<Json>>)
    ensures ConcatLists(seq(|chunks|, i requires 0 <= i < |chunks| => JList(chunks[i]))) == Flatten(chunks)
  {
    var xs := seq(|chunks|, i requires 0 <= i < |chunks| => JList(chunks[i]));
    if chunks != [] {
      var pre := chunks[..|chunks| - 1];
      ConcatListsOfChunks(pre);
      assert xs[..|xs| - 1] == seq(|pre|, i requires 0 <= i < |pre| => JList(pre[i]));
    }
  }

  /** The flattening loop of `enhance_document_structure`. */
  method FlattenLists(xs: seq<Json>) returns (flat: seq<Json>)
    ensures flat == ConcatLists(xs)
  {
    flat := [];
    var i := 0;
    while i < |xs|
      invariant 0 <= i <= |xs|
      invariant flat == ConcatLists(xs[..i])
    {
      assert xs[..i + 1][..i] == xs[..i];
      if xs[i].JList? {
        flat := flat + xs[i].items;
      }
      i := i + 1;
    }
    assert xs[..i] == xs;
  }

  /** What the service's replies about `chunks` make of `elements`: the
      input again when a call fails, otherwise the items of the list readings
      of the replies, in chunk order. */
  function Enhanced(elements: seq<Json>, chunks: seq<seq<Json>>, ask: (seq<Json>, nat) -> Reply): seq<Json> {
    if exists i :: 0 <= i < |chunks| && ask(chunks[i], i).CallFailed? then elements
    else ConcatLists(seq(|chunks|, i requires 0 <= i < |chunks| =>
                           InterpretStructureReply(ask(chunks[i], i), chunks[i]).value))
  }

  /** `enhance_document_structure(elements)`, with `ask(chunk, i)` the reply
      about the `i`-th chunk of at most twenty elements. */
  method EnhanceDocumentStructure(hasApiKey: bool, elements: seq<Json>, ask: (seq<Json>, nat) -> Reply)
    returns (enhanced: seq<Json>, ghost chunks: seq<seq<Json>>)
    ensures !hasApiKey ==> enhanced == elements
    ensures hasApiKey ==> Flatten(chunks) == elements
    ensures hasApiKey && (exists i :: 0 <= i < |chunks| && ask(chunks[i], i).CallFailed?) ==> enhanced == elements
    ensures hasApiKey && (forall i :: 0 <= i < |chunks| ==> !ask(chunks[i], i).CallFailed?) ==>
              enhanced == ConcatLists(seq(|chunks|, i requires 0 <= i < |chunks| =>
                                            InterpretStructureReply(ask(chunks[i], i), chunks[i]).value))
    ensures hasApiKey && (forall i :: 0 <= i < |chunks| ==> PassThrough(ask(chunks[i], i))) ==> enhanced == elements
    ensures hasApiKey ==> ElementChunks(elements, 20, chunks) && enhanced == Enhanced(elements, chunks, ask)
  {
    chunks := [];
    if !hasApiKey {
      return elements, chunks;
    }
    var elementChunks := ChunkElements(elements, 20);
    chunks := elementChunks;
    var interpreted: seq<Json> := [];
    var i := 0;
    while i < |elementChunks|
      invariant 0 <= i <= |elementChunks|
      invariant forall j :: 0 <= j < i ==> !ask(elementChunks[j], j).CallFailed?
      invariant interpreted == seq(i, j requires 0 <= j < i =>
                                     InterpretStructureReply(ask(elementChunks[j], j), elementChunks[j]).value)
    {
      var r := InterpretStructureReply(ask(elementChunks[i], i), elementChunks[i]);
      if r.None? {
        return elements, chunks;
      }
      interpreted := interpreted + [r.value];
      i := i + 1;
    }
    enhanced := FlattenLists(interpreted);
    if forall j :: 0 <= j < |chunks| ==> PassThrough(ask(chunks[j], j)) {
      assert interpreted == seq(|chunks|, j requires 0 <= j < |chunks| => JList(chunks[j]));
      ConcatListsOfChunks(chunks);
    }
  }

  // ---------------------------------------------------------------------
  // Structured extraction
  // ---------------------------------------------------------------------

  /** The result a parsed extraction reply stands for: `{}` when it did not parse. */
  function ExtractionReplyValue(reply: Reply): Json
    requires !reply.CallFailed?
  {
    if reply.Parsed? then reply.value else JObj(map[])
  }

  predicate AllObjects(values: seq<Json>) {
    forall i :: 0 <= i < |values| ==> values[i].JObj?
  }

  function FieldsOf(values: seq<Json>): (r: seq<map<string, Json>>)
    requires AllObjects(values)
    ensures |r| == |values| && forall i :: 0 <= i < |values| ==> r[i] == values[i].fields
  {
    seq(|values|, i requires 0 <= i < |values| => values[i].fields)
  }

  /** What `_merge_extraction_results` makes of the chunks' results, the
      fallback standing for any exception: all dictionaries merge; a first
      non-dictionary is returned as it is when every later result is `{}`;
      any other non-dictionary makes the merge raise. */
  function MergedReplies(values: seq<Json>, schema: map<string, Json>): Json {
    if values == [] then JObj(Fallback(schema))
    else if AllObjects(values) then JObj(MergeAll(FieldsOf(values)))
    else if !values[0].JObj? && forall i :: 1 <= i < |values| ==> values[i] == JObj(map[]) then values[0]
    else JObj(Fallback(schema))
  }

  /** `extract_structured_content(text, schema)`, with `ask(chunk)` the reply
      about one chunk of at most 4000 characters. */
  method ExtractStructuredContent(hasApiKey: bool, text: string, schema: map<string, Json>, ask: string -> Reply)
    returns (extracted: Json, ghost chunks: seq<string>)
    ensures !hasApiKey ==> extracted == JObj(Fallback(schema))
    ensures hasApiKey ==> TextChunks(text, 4000, chunks)
    ensures hasApiKey && (exists i :: 0 <= i < |chunks| && ask(chunks[i]).CallFailed?) ==>
              extracted == JObj(Fallback(schema))
    ensures hasApiKey && |chunks| == 1 && !ask(chunks[0]).CallFailed? ==>
              extracted == ExtractionReplyValue(ask(chunks[0]))
    ensures hasApiKey && |chunks| != 1 && (forall i :: 0 <= i < |chunks| ==> !ask(chunks[i]).CallFailed?) ==>
              extracted == MergedReplies(seq(|chunks|, i requires 0 <= i < |chunks| => ExtractionReplyValue(ask(chunks[i]))), schema)
  {
    chunks := [];
    if !hasApiKey {
      var fallback := FallbackExtraction(text, schema);
      return JObj(fallback), chunks;
    }
    var textChunks := ChunkText(text, 4000);
    chunks := textChunks;
    var values: seq<Json> := [];
    var i := 0;
    while i < |textChunks|
      invariant 0 <= i <= |textChunks|
      invariant forall j :: 0 <= j < i ==> !ask(textChunks[j]).CallFailed?
      invariant values == seq(i, j requires 0 <= j < i => ExtractionReplyValue(ask(textChunks[j])))
    {
      var reply := ask(textChunks[i]);
      if reply.CallFailed? {
        var fallback := FallbackExtraction(text, schema);
        return JObj(fallback), chunks;
      }
      values := values + [ExtractionReplyValue(reply)];
      i := i + 1;
    }
    if |values| == 1 {
      return values[0], chunks;
    }
    if AllObjects(values) {
      var merged := MergeExtractionResults(FieldsOf(values), schema);
      return JObj(merged), chunks;
    }
    if !values[0].JObj? && forall j :: 1 <= j < |values| ==> values[j] == JObj(map[]) {
      return values[0], chunks;
    }
    var fallback := FallbackExtraction(text, schema);
    extracted := JObj(fallback);
  }
}
