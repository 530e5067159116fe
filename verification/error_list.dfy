/** The error list a submit handler builds: each check runs, and the message of each
    check that failed is appended, in the order the checks run. */
module ErrorList {
  import opened Sequences

  /** The messages of the failed checks, in check order. */
  function Failed(messages: seq<string>, passed: seq<bool>): (r: seq<string>)
    requires |messages| == |passed|
    ensures |r| == CountOf(passed, false)
    decreases |messages|
  {
    if |messages| == 0 then []
    else
      Failed(messages[..|messages| - 1], passed[..|passed| - 1]) +
      (if passed[|passed| - 1] then [] else [messages[|messages| - 1]])
  }

  /** The error list keeps the order of the checks: it is a subsequence of all the messages. */
  lemma {:induction false} FailedInOrder(messages: seq<string>, passed: seq<bool>)
    requires |messages| == |passed|
    ensures IsSubseq(Failed(messages, passed), messages)
    decreases |messages|
  {
    if |messages| > 0 {
      var n := |messages| - 1;
      var front := Failed(messages[..n], passed[..n]);
      FailedInOrder(messages[..n], passed[..n]);
      var r := Failed(messages, passed);
      if !passed[n] {
        assert r == front + [messages[n]];
        assert r[..|r| - 1] == front;
      } else {
        assert r == front;
      }
    }
  }

  /** Running the checks one by one: after check `i`, the list grows by its message iff it failed. */
  lemma FailedPrefixStep(messages: seq<string>, passed: seq<bool>, i: nat)
    requires |messages| == |passed| && i < |messages|
    ensures Failed(messages[..i + 1], passed[..i + 1]) ==
            Failed(messages[..i], passed[..i]) + (if passed[i] then [] else [messages[i]])
  {
    assert messages[..i + 1][..i] == messages[..i];
    assert passed[..i + 1][..i] == passed[..i];
  }

  /** Every message in the list belongs to a failed check, and every failed check's
      message is in the list; the list is empty iff every check passed. */
  lemma {:induction false} FailedMembers(messages: seq<string>, passed: seq<bool>)
    requires |messages| == |passed|
    ensures forall m :: m in Failed(messages, passed) ==>
              exists i :: 0 <= i < |messages| && messages[i] == m && !passed[i]
    ensures forall i :: 0 <= i < |messages| && !passed[i] ==> messages[i] in Failed(messages, passed)
    ensures Failed(messages, passed) == [] <==> forall i :: 0 <= i < |passed| ==> passed[i]
    decreases |messages|
  {
    if |messages| > 0 {
      var n := |messages| - 1;
      var front, r := Failed(messages[..n], passed[..n]), Failed(messages, passed);
      FailedMembers(messages[..n], passed[..n]);
      assert r == front + (if passed[n] then [] else [messages[n]]);
      forall m | m in r ensures exists i :: 0 <= i < |messages| && messages[i] == m && !passed[i] {
        if m in front {
          var i :| 0 <= i < n && messages[..n][i] == m && !passed[..n][i];
          assert messages[i] == m && !passed[i];
        } else {
          assert messages[n] == m && !passed[n];
        }
      }
      forall i | 0 <= i < |messages| && !passed[i] ensures messages[i] in r {
        if i < n {
          assert messages[..n][i] == messages[i] && passed[..n][i] == passed[i];
        }
      }
      if r == [] {
        forall i | 0 <= i < |passed| ensures passed[i] {
          if i < n {
            assert passed[..n][i] == passed[i];
          }
        }
      }
      if forall i :: 0 <= i < |passed| ==> passed[i] {
        assert forall i :: 0 <= i < n ==> passed[..n][i];
      }
    }
  }

  /** With distinct messages, a message is reported exactly when its own check failed. */
  lemma FailedExactly(messages: seq<string>, passed: seq<bool>, i: nat)
    requires |messages| == |passed|
    requires forall a, b :: 0 <= a < b < |messages| ==> messages[a] != messages[b]
    requires i < |messages|
    ensures messages[i] in Failed(messages, passed) <==> !passed[i]
  {
    FailedMembers(messages, passed);
    if messages[i] in Failed(messages, passed) {
      var k :| 0 <= k < |messages| && messages[k] == messages[i] && !passed[k];
      assert k == i;
    }
  }
}
