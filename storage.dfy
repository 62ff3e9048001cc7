/** The in-memory result store: a map from transaction id to processing
    result. The copy each write also makes on disk is reduced to a boolean
    parameter saying whether writing it succeeded. */
module Storage {
  import opened Wrappers
  import opened Document

  /** `result` after `update_status(…, status, message)` at time `now`: the
      status and update time are replaced, and one log line `"<now>: <message>"`
      is appended exactly when the message is a non-empty string. */
  function WithStatus(result: ProcessingResult, status: ProcessingStatus, message: Option<string>,
                      now: Timestamp): (r: ProcessingResult)
    ensures r.status == status && r.updatedAt == now
    ensures r.transactionId == result.transactionId && r.metadata == result.metadata
    ensures r.extractedElements == result.extractedElements && r.errorMessage == result.errorMessage
    ensures r.createdAt == result.createdAt && r.rawText == result.rawText
    ensures r.structuredData == result.structuredData
    ensures |r.processingLog| == |result.processingLog| + (if message.Some? && message.value != "" then 1 else 0)
    ensures r.processingLog[..|result.processingLog|] == result.processingLog
    ensures message.Some? && message.value != "" ==> r.processingLog[|r.processingLog| - 1] == now + ": " + message.value
  {
    var log := if message.Some? && message.value != ""
               then result.processingLog + [now + ": " + message.value]
               else result.processingLog;
    result.(status := status, updatedAt := now, processingLog := log)
  }

  class InMemoryStorage {
    var results: map<string, ProcessingResult>

    /** Every result is filed under its own transaction id. */
    ghost predicate Valid()
      reads this
    {
      forall id :: id in results ==> results[id].transactionId == id
    }

    constructor ()
      ensures Valid() && results == map[]
    {
      results := map[];
    }

    /** `store_result(result)`: the map is updated before the file write, so
        the entry is in place even when the write fails and `False` is returned. */
    method StoreResult(result: ProcessingResult, persisted: bool) returns (ok: bool)
      requires Valid()
      modifies this
      ensures Valid()
      ensures results == old(results)[result.transactionId := result]
      ensures ok == persisted
    {
      results := results[result.transactionId := result];
      ok := persisted;
    }

    /** `get_result(transaction_id)`, from memory. */
    method GetResult(transactionId: string) returns (r: Option<ProcessingResult>)
      ensures r.Some? <==> transactionId in results
      ensures r.Some? ==> r.value == results[transactionId]
    {
      if transactionId in results {
        return Some(results[transactionId]);
      }
      return None;
    }

    /** `update_status(transaction_id, status, message)`: `False` and no change
        for an unknown id; otherwise the stored result is updated by
        `WithStatus` and re-stored, and `True` is returned whatever the file
        write does. */
    method UpdateStatus(transactionId: string, status: ProcessingStatus, message: Option<string>,
                        now: Timestamp, persisted: bool) returns (updated: bool)
      requires Valid()
      modifies this
      ensures Valid()
      ensures updated <==> transactionId in old(results)
      ensures !updated ==> results == old(results)
      ensures updated ==> results == old(results)[transactionId := WithStatus(old(results)[transactionId], status, message, now)]
    {
      var found := GetResult(transactionId);
      if found.Some? {
        var result := WithStatus(found.value, status, message, now);
        var _ := StoreResult(result, persisted);
        return true;
      }
      return false;
    }

    /** `delete_result(transaction_id)`: the id is gone afterwards, and `True`
        is returned whether or not it was there. */
    method DeleteResult(transactionId: string) returns (ok: bool)
      requires Valid()
      modifies this
      ensures Valid()
      ensures results == old(results) - {transactionId}
      ensures ok
    {
      if transactionId in results {
        results := results - {transactionId};
      }
      ok := true;
    }

    /** `get_all_results()`: every stored result exactly once; `ids` says which
        entry each one is. */
    method GetAllResults() returns (all: seq<ProcessingResult>, ghost ids: seq<string>)
      ensures |all| == |ids| == |results|
      ensures forall i :: 0 <= i < |ids| ==> ids[i] in results && all[i] == results[ids[i]]
      ensures forall i, j :: 0 <= i < j < |ids| ==> ids[i] != ids[j]
      ensures forall id :: id in results ==> id in ids
      ensures forall r :: r in all <==> r in results.Values
    {
      all, ids := [], [];
      var keys := results.Keys;
      while keys != {}
        invariant keys <= results.Keys
        invariant |ids| == |all| && |ids| + |keys| == |results.Keys|
        invariant forall i :: 0 <= i < |ids| ==> ids[i] in results && ids[i] !in keys && all[i] == results[ids[i]]
        invariant forall i, j :: 0 <= i < j < |ids| ==> ids[i] != ids[j]
        invariant forall id :: id in results ==> id in keys || id in ids
        decreases keys
      {
        var id :| id in keys;
        all, ids := all + [results[id]], ids + [id];
        keys := keys - {id};
      }
    }
  }
}
