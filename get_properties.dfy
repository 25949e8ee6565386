/** What the callers of `Get` can rely on, stated over the try block's
    specification and the catch arms. */
module GetProperties {
  import opened Wrappers
  import opened Aws
  import opened HelloS3
  import opened Assembly

  /** Projection distributes over concatenation. */
  lemma ProjectionAppend(contents: map<string, string>, a: seq<string>, b: seq<string>)
    requires forall k :: k in a ==> k in contents
    requires forall k :: k in b ==> k in contents
    ensures forall k :: k in a + b ==> k in contents
    ensures Projection(contents, a + b) == Projection(contents, a) + Projection(contents, b)
  {
  }

  /** Taking the last key of `s` out of both sides keeps two orderings of the
      same keys orderings of the same keys. */
  lemma RemoveMatching(s: seq<string>, t: seq<string>, j: nat)
    requires s != [] && multiset(s) == multiset(t)
    requires j < |t| && t[j] == s[|s| - 1]
    ensures multiset(s[..|s| - 1]) == multiset(t[..j] + t[j + 1..])
  {
    var x, init := s[|s| - 1], s[..|s| - 1];
    var left, right := t[..j], t[j + 1..];
    assert s == init + [x];
    assert t == left + [x] + right;
    assert multiset(s) == multiset(init) + multiset{x};
    assert multiset(t) == multiset(left) + multiset{x} + multiset(right);
    assert multiset(init) == multiset(s) - multiset{x};
    assert multiset(left + right) == multiset(t) - multiset{x};
  }

  /** Projecting a list is projecting it without its `j`th key, plus that key's content. */
  lemma ProjectionWithout(contents: map<string, string>, t: seq<string>, j: nat)
    requires forall k :: k in t ==> k in contents
    requires j < |t|
    ensures forall k :: k in t[..j] + t[j + 1..] ==> k in contents
    ensures multiset(Projection(contents, t)) ==
            multiset(Projection(contents, t[..j] + t[j + 1..])) + multiset{contents[t[j]]}
  {
    var left, right := t[..j], t[j + 1..];
    assert t == left + [t[j]] + right;
    ProjectionAppend(contents, left, [t[j]]);
    ProjectionAppend(contents, left + [t[j]], right);
    ProjectionAppend(contents, left, right);
    assert Projection(contents, [t[j]]) == [contents[t[j]]];
  }

  /** Projecting two orderings of the same keys gives the same contents, counted with multiplicity. */
  lemma {:induction false} ProjectionOfPermutation(contents: map<string, string>, s: seq<string>, t: seq<string>)
    requires forall k :: k in s ==> k in contents
    requires multiset(s) == multiset(t)
    ensures forall k :: k in t ==> k in contents
    ensures multiset(Projection(contents, s)) == multiset(Projection(contents, t))
    decreases |s|
  {
    assert forall k :: k in t ==> k in multiset(s);
    if s != [] {
      var n := |s| - 1;
      assert s[n] in multiset(t);
      var j :| 0 <= j < |t| && t[j] == s[n];
      RemoveMatching(s, t, j);
      ProjectionOfPermutation(contents, s[..n], t[..j] + t[j + 1..]);
      ProjectionWithout(contents, t, j);
    }
  }

  /** On success the envelope holds exactly as many contents as there were listed keys. */
  lemma OkHasOneMessagePerKey(keys: seq<string>, store: string -> FetchResponse, o: TryOutcome)
    requires TryBlockSpec(keys, store, o)
    requires Catch(o).responseCode == Ok
    ensures Catch(o).messages.Some? && |Catch(o).messages.value| == |keys|
  {
    assert |multiset(o.order)| == |multiset(keys)|;
  }

  /** On success the contents are those of the listed keys, each once, in some order:
      a permutation of the dictionary's contents in listing order. */
  lemma OkIsPermutationOfContents(keys: seq<string>, store: string -> FetchResponse, o: TryOutcome)
    requires TryBlockSpec(keys, store, o)
    requires o.Completed?
    ensures Gathered(keys, store).Success?
    ensures var c := Gathered(keys, store).value;
            && (forall k :: k in keys ==> k in c.contents)
            && multiset(o.messages) == multiset(Projection(c.contents, keys))
  {
    var c := Gathered(keys, store).value;
    ProjectionOfPermutation(c.contents, o.order, keys);
  }

  /** On success the last-modified times are non-decreasing along the output. */
  lemma OkIsInLastModifiedOrder(keys: seq<string>, store: string -> FetchResponse, o: TryOutcome)
    requires TryBlockSpec(keys, store, o)
    requires o.Completed?
    ensures Gathered(keys, store).Success?
    ensures var c := Gathered(keys, store).value;
            && (forall i :: 0 <= i < |o.order| ==> o.order[i] in c.dates && o.order[i] in c.contents)
            && (forall i :: 0 <= i < |o.order| ==> o.messages[i] == c.contents[o.order[i]])
            && (forall i :: 0 <= i < |o.order| - 1 ==> c.dates[o.order[i]] <= c.dates[o.order[i + 1]])
  {
    var c := Gathered(keys, store).value;
    GatheredRecords(keys, store, c);
    assert forall k :: k in o.order ==> k in multiset(keys);
    forall i | 0 <= i < |o.order|
      ensures o.order[i] in c.dates
    {
      assert o.order[i] in c.contents;
    }
    forall i | 0 <= i < |o.order| - 1
      ensures c.dates[o.order[i]] <= c.dates[o.order[i + 1]]
    {
      assert NotLater(c.dates, o.order[i], o.order[i + 1]);
    }
  }

  /** A store that answers every listed key under that key, for a listing
      without duplicates, lets the tasks record every key with its answer. */
  lemma WellBehavedStoreRecordsEveryKey(keys: seq<string>, store: string -> FetchResponse)
    requires forall i, j :: 0 <= i < j < |keys| ==> keys[i] != keys[j]
    requires forall k :: k in keys ==> store(k).Fetched? && store(k).key == k
    ensures Gathered(keys, store).Success?
    ensures var c := Gathered(keys, store).value;
            forall k :: k in keys ==> k in c.dates && c.dates[k] == store(k).lastModified &&
                                      k in c.contents && c.contents[k] == store(k).content
  {
    assert forall i :: 0 <= i < |keys| ==> keys[i] in keys;
    assert DistinctAnswers(keys, store);
    GatheredSucceedsIff(keys, store);
    var c := Gathered(keys, store).value;
    GatheredRecords(keys, store, c);
    forall k | k in keys
      ensures k in c.dates && c.dates[k] == store(k).lastModified && k in c.contents && c.contents[k] == store(k).content
    {
      var i :| 0 <= i < |keys| && keys[i] == k;
      assert Answered(store(keys[i]), c);
    }
  }

  /** Under such a store the try block runs to its end. */
  lemma WellBehavedStoreCompletes(keys: seq<string>, store: string -> FetchResponse, o: TryOutcome)
    requires forall i, j :: 0 <= i < j < |keys| ==> keys[i] != keys[j]
    requires forall k :: k in keys ==> store(k).Fetched? && store(k).key == k
    requires TryBlockSpec(keys, store, o)
    ensures o.Completed?
  {
    WellBehavedStoreRecordsEveryKey(keys, store);
    var c := Gathered(keys, store).value;
    assert !exists k :: k in keys && k !in c.dates;
    assert |keys| == 1 ==> keys[0] in c.contents;
  }

  /** The contents the store holds for `keys`, in listing order. */
  function StoredContents(keys: seq<string>, store: string -> FetchResponse): seq<string>
    requires forall k :: k in keys ==> store(k).Fetched?
  {
    seq(|keys|, i requires 0 <= i < |keys| => store(keys[i]).content)
  }

  /** A store that answers every listed key under that key, for a listing
      without duplicates: the result is `Ok` with one content per listed key,
      each the content of the key at that place, in ascending last-modified order. */
  lemma WellBehavedStoreYieldsSortedContents(keys: seq<string>, store: string -> FetchResponse, o: TryOutcome)
    requires forall i, j :: 0 <= i < j < |keys| ==> keys[i] != keys[j]
    requires forall k :: k in keys ==> store(k).Fetched? && store(k).key == k
    requires TryBlockSpec(keys, store, o)
    ensures o.Completed? && Catch(o) == OkResult(o.messages)
    ensures |o.messages| == |keys| && multiset(o.order) == multiset(keys)
    ensures forall k :: k in o.order ==> k in keys
    ensures forall i :: 0 <= i < |o.order| ==> o.messages[i] == store(o.order[i]).content
    ensures forall i :: 0 <= i < |o.order| - 1 ==> store(o.order[i]).lastModified <= store(o.order[i + 1]).lastModified
  {
    WellBehavedStoreCompletes(keys, store, o);
    WellBehavedStoreRecordsEveryKey(keys, store);
    var c := Gathered(keys, store).value;
    OkIsInLastModifiedOrder(keys, store, o);
    OkHasOneMessagePerKey(keys, store, o);
    SameMembers(o.order, keys);
    RecordedAnswersAlongOrder(keys, store, c, o.order, o.messages);
  }

  /** Under the same store every listed object's content appears exactly once
      in the result, and nothing else does. */
  lemma WellBehavedStoreYieldsEachContentOnce(keys: seq<string>, store: string -> FetchResponse, o: TryOutcome)
    requires forall i, j :: 0 <= i < j < |keys| ==> keys[i] != keys[j]
    requires forall k :: k in keys ==> store(k).Fetched? && store(k).key == k
    requires TryBlockSpec(keys, store, o)
    ensures o.Completed?
    ensures multiset(o.messages) == multiset(StoredContents(keys, store))
  {
    WellBehavedStoreCompletes(keys, store, o);
    WellBehavedStoreRecordsEveryKey(keys, store);
    var c := Gathered(keys, store).value;
    OkIsPermutationOfContents(keys, store, o);
    assert Projection(c.contents, keys) == StoredContents(keys, store) by {
      forall i | 0 <= i < |keys|
        ensures Projection(c.contents, keys)[i] == StoredContents(keys, store)[i]
      {
        assert keys[i] in keys;
      }
    }
  }

  /** Two orderings of the same keys have the same members. */
  lemma SameMembers(s: seq<string>, t: seq<string>)
    requires multiset(s) == multiset(t)
    ensures forall k :: k in s ==> k in t
  {
    forall k | k in s
      ensures k in t
    {
      assert k in multiset(s);
    }
  }

  /** Reading the dictionary facts along an ordering of the listed keys back
      as the store's own answers. */
  lemma RecordedAnswersAlongOrder(keys: seq<string>, store: string -> FetchResponse, c: Collected,
                                  order: seq<string>, messages: seq<string>)
    requires forall k :: k in keys ==> store(k).Fetched? && store(k).key == k
    requires forall k :: k in keys ==> k in c.dates && c.dates[k] == store(k).lastModified &&
                                       k in c.contents && c.contents[k] == store(k).content
    requires forall k :: k in order ==> k in keys
    requires |messages| == |order|
    requires forall i :: 0 <= i < |order| ==> messages[i] == c.contents[order[i]]
    requires forall i :: 0 <= i < |order| - 1 ==> c.dates[order[i]] <= c.dates[order[i + 1]]
    ensures forall i :: 0 <= i < |order| ==> messages[i] == store(order[i]).content
    ensures forall i :: 0 <= i < |order| - 1 ==> store(order[i]).lastModified <= store(order[i + 1]).lastModified
  {
  }

  /** An empty listing gives `Ok` with no contents, whatever the store would have answered. */
  lemma EmptyListingIsOk(store: string -> FetchResponse, other: string -> FetchResponse, o: TryOutcome)
    ensures TryBlockSpec([], store, o) <==> o == Completed([], [])
    ensures TryBlockSpec([], store, o) <==> TryBlockSpec([], other, o)
    ensures TryBlockSpec([], store, o) ==> Catch(o) == OkResult([])
  {
  }

  /** A fetch that throws, after every earlier task has succeeded and when no
      two responses anywhere in the listing name the same key, decides the
      outcome: a store exception gives `AwsError` and its status code, any other
      gives `Error` with the status unchanged; both carry the exception's text
      and no contents. */
  lemma {:induction false} FetchFailureIsReported(keys: seq<string>, store: string -> FetchResponse, i: nat, o: TryOutcome, status: int)
    requires i < |keys| && DistinctAnswers(keys[..i], store)
    requires store(keys[i]).FetchFailed?
    requires forall p, q :: 0 <= p < q < |keys| && store(keys[p]).Fetched? && store(keys[q]).Fetched? ==>
      store(keys[p]).key != store(keys[q]).key
    requires TryBlockSpec(keys, store, o)
    ensures var e := store(keys[i]).error;
            && o == Raised(e)
            && Catch(o) == FailedResult(if e.AmazonS3Exception? then AwsError else Error, Describe(e))
            && StatusAfter(o, status) == (if e.AmazonS3Exception? then e.status else status)
  {
    GatheredSucceedsIff(keys[..i], store);
    assert keys[..i + 1][..i] == keys[..i];
    FailureIsFinal(keys, store, i + 1, store(keys[i]).error);
  }

  /** Two listed keys answered under the same key make the second `Add` throw:
      the generic arm reports `Error`, with no contents and the status unchanged. */
  lemma DuplicateAnswerIsError(keys: seq<string>, store: string -> FetchResponse, i: nat, j: nat, o: TryOutcome, status: int)
    requires i < j < |keys|
    requires forall l :: 0 <= l < |keys| ==> store(keys[l]).Fetched?
    requires store(keys[i]).key == store(keys[j]).key
    requires TryBlockSpec(keys, store, o)
    ensures o.Raised? && o.error.ArgumentException?
    ensures Catch(o) == FailedResult(Error, Describe(o.error))
    ensures StatusAfter(o, status) == status
  {
    GatheredSucceedsIff(keys, store);
    GatheredFailureCause(keys, store);
  }

  /** A listed key that the tasks did not record (its response named another
      key) makes the sort's comparison or the projection throw
      `KeyNotFoundException`: the generic arm reports `Error`, with no contents
      and the status unchanged. */
  lemma MissingKeyIsError(keys: seq<string>, store: string -> FetchResponse, k: string, o: TryOutcome, status: int)
    requires Gathered(keys, store).Success?
    requires k in keys && k !in Gathered(keys, store).value.dates
    requires TryBlockSpec(keys, store, o)
    ensures o.Raised?
    ensures exists m :: (m in keys && m !in Gathered(keys, store).value.dates &&
      o.error == (if |keys| == 1 then KeyNotFoundException(m) else InvalidOperationException(KeyNotFoundException(m))))
    ensures Catch(o) == FailedResult(Error, Describe(o.error))
    ensures StatusAfter(o, status) == status
  {
  }
}
