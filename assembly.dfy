/** The assembly step of `S3ProxyController.Get`: the fetch tasks fill the
    last-modified and content dictionaries, the listed keys are sorted by
    last-modified time, each key is projected to its content, and the two
    catch arms turn an exception into an error envelope. */
module Assembly {
  import opened Wrappers
  import opened Aws
  import opened HelloS3

  /** The two dictionaries the fetch tasks fill: `creationDates` and `bucketContents`. */
  datatype Collected = Collected(dates: map<string, int>, contents: map<string, string>)

  /** One fetch task after the store has answered: add the last-modified time,
      then the content, both under the key the response names. */
  function Record(c: Collected, r: FetchResponse): (o: Outcome<Collected, Exception>)
    ensures o.Success? <==> r.Fetched? && r.key !in c.dates && r.key !in c.contents
    ensures o.Failure? ==> o.error == if r.FetchFailed? then r.error else ArgumentException(r.key)
  {
    match r
    case FetchFailed(e) => Failure(e)
    case Fetched(key, lastModified, content) =>
      if key in c.dates then Failure(ArgumentException(key))
      // the second `Add`; it cannot throw here, as both dictionaries always hold the same keys
      // (`GatheredRecords`), but it is kept as the source has it
      else if key in c.contents then Failure(ArgumentException(key))
      else Success(Collected(c.dates[key := lastModified], c.contents[key := content]))
  }

  /** The dictionaries after the tasks for `keys` have run in listing order,
      or the first exception one of them raised. */
  function Gathered(keys: seq<string>, store: string -> FetchResponse): (r: Outcome<Collected, Exception>)
    ensures r.Success? ==> |r.value.dates| == |keys| && |r.value.contents| == |keys|
  {
    if keys == [] then Success(Collected(map[], map[]))
    else
      match Gathered(keys[..|keys| - 1], store)
      case Failure(e) => Failure(e)
      case Success(c) => Record(c, store(keys[|keys| - 1]))
  }

  /** The response `r` was recorded in `c`: under its own key, with its own time and content. */
  predicate Answered(r: FetchResponse, c: Collected)
  {
    && r.Fetched?
    && r.key in c.dates && c.dates[r.key] == r.lastModified
    && r.key in c.contents && c.contents[r.key] == r.content
  }

  /** Every fetch succeeded and no two responses name the same key. */
  predicate DistinctAnswers(keys: seq<string>, store: string -> FetchResponse)
  {
    && (forall i :: 0 <= i < |keys| ==> store(keys[i]).Fetched?)
    && (forall i, j :: 0 <= i < j < |keys| ==> store(keys[i]).key != store(keys[j]).key)
  }

  /** Once a task has thrown, later tasks do not change the outcome. */
  lemma {:induction false} FailureIsFinal(keys: seq<string>, store: string -> FetchResponse, i: nat, e: Exception)
    requires i <= |keys| && Gathered(keys[..i], store) == Failure(e)
    ensures Gathered(keys, store) == Failure(e)
    decreases |keys|
  {
    if i < |keys| {
      var init := keys[..|keys| - 1];
      assert init[..i] == keys[..i];
      FailureIsFinal(init, store, i, e);
    } else {
      assert keys[..i] == keys;
    }
  }

  /** On success both dictionaries hold exactly the keys the responses name,
      and each response is recorded under its key. */
  lemma {:induction false} GatheredRecords(keys: seq<string>, store: string -> FetchResponse, c: Collected)
    requires Gathered(keys, store) == Success(c)
    ensures c.dates.Keys == c.contents.Keys
    ensures forall i :: 0 <= i < |keys| ==> Answered(store(keys[i]), c)
    ensures forall k :: k in c.dates ==> exists i :: 0 <= i < |keys| && store(keys[i]).Fetched? && store(keys[i]).key == k
    decreases |keys|
  {
    if keys != [] {
      var init := keys[..|keys| - 1];
      var c' := Gathered(init, store).value;
      GatheredRecords(init, store, c');
      var last := store(keys[|keys| - 1]);
      assert c == Collected(c'.dates[last.key := last.lastModified], c'.contents[last.key := last.content]);
      forall i | 0 <= i < |keys|
        ensures Answered(store(keys[i]), c)
      {
        if i < |keys| - 1 {
          assert keys[i] == init[i];
          assert Answered(store(init[i]), c');
        }
      }
      forall k | k in c.dates
        ensures exists i :: 0 <= i < |keys| && store(keys[i]).Fetched? && store(keys[i]).key == k
      {
        if k == last.key {
          assert store(keys[|keys| - 1]).key == k;
        } else {
          var i :| 0 <= i < |init| && store(init[i]).Fetched? && store(init[i]).key == k;
          assert store(keys[i]).key == k;
        }
      }
    }
  }

  /** `DistinctAnswers` for a listing, split into its prefix and its last key. */
  lemma DistinctAnswersSnoc(keys: seq<string>, store: string -> FetchResponse)
    requires keys != []
    ensures var n := |keys| - 1;
            DistinctAnswers(keys, store) <==>
              && DistinctAnswers(keys[..n], store)
              && store(keys[n]).Fetched?
              && (forall i :: 0 <= i < n ==> store(keys[i]).key != store(keys[n]).key)
  {
    var n := |keys| - 1;
    assert forall i :: 0 <= i < n ==> keys[i] == keys[..n][i];
  }

  /** The tasks all complete exactly when every fetch succeeds and the responses name distinct keys. */
  lemma {:induction false} GatheredSucceedsIff(keys: seq<string>, store: string -> FetchResponse)
    ensures Gathered(keys, store).Success? <==> DistinctAnswers(keys, store)
    decreases |keys|
  {
    if keys != [] {
      var n := |keys| - 1;
      var init := keys[..n];
      GatheredSucceedsIff(init, store);
      DistinctAnswersSnoc(keys, store);
      var last := store(keys[n]);
      if Gathered(init, store).Success? {
        var c := Gathered(init, store).value;
        GatheredRecords(init, store, c);
        if last.Fetched? && last.key in c.dates {
          var i :| 0 <= i < n && store(init[i]).Fetched? && store(init[i]).key == last.key;
          assert keys[i] == init[i];
        } else if last.Fetched? {
          forall i | 0 <= i < n
            ensures store(keys[i]).Fetched? && store(keys[i]).key != last.key
          {
            assert keys[i] == init[i];
            assert Answered(store(init[i]), c);
          }
        }
      }
    }
  }

  /** A failed run of the tasks reports either an exception a fetch raised,
      or the `ArgumentException` of a duplicate `Add`, whose key two of the
      responses name. */
  lemma {:induction false} GatheredFailureCause(keys: seq<string>, store: string -> FetchResponse)
    requires Gathered(keys, store).Failure?
    ensures var e := Gathered(keys, store).error;
            || (exists i :: 0 <= i < |keys| && store(keys[i]) == FetchFailed(e))
            || (&& e.ArgumentException?
                && exists p, q :: && 0 <= p < q < |keys|
                                  && store(keys[p]).Fetched? && store(keys[p]).key == e.key
                                  && store(keys[q]).Fetched? && store(keys[q]).key == e.key)
    decreases |keys|
  {
    var n := |keys| - 1;
    var init := keys[..n];
    var e := Gathered(keys, store).error;
    if Gathered(init, store).Failure? {
      GatheredFailureCause(init, store);
      if exists i :: 0 <= i < n && store(init[i]) == FetchFailed(e) {
        var i :| 0 <= i < n && store(init[i]) == FetchFailed(e);
        assert keys[i] == init[i];
      } else {
        var p, q :| && 0 <= p < q < n
                    && store(init[p]).Fetched? && store(init[p]).key == e.key
                    && store(init[q]).Fetched? && store(init[q]).key == e.key;
        assert keys[p] == init[p] && keys[q] == init[q];
      }
    } else {
      var c := Gathered(init, store).value;
      GatheredRecords(init, store, c);
      if store(keys[n]).Fetched? {
        var p :| 0 <= p < n && store(init[p]).Fetched? && store(init[p]).key == e.key;
        assert keys[p] == init[p];
      }
    }
  }

  /** The fan-out over the listed keys, run as a sequential loop that fills
      the two dictionaries. */
  method FetchAll(keys: seq<string>, store: string -> FetchResponse) returns (r: Outcome<Collected, Exception>)
    ensures r == Gathered(keys, store)
  {
    var dates: map<string, int> := map[];
    var contents: map<string, string> := map[];
    var i := 0;
    while i < |keys|
      invariant 0 <= i <= |keys|
      invariant Gathered(keys[..i], store) == Success(Collected(dates, contents))
    {
      assert keys[..i + 1][..i] == keys[..i];
      var response := store(keys[i]);
      if response.FetchFailed? {
        FailureIsFinal(keys, store, i + 1, response.error);
        return Failure(response.error);
      }
      if response.key in dates {
        FailureIsFinal(keys, store, i + 1, ArgumentException(response.key));
        return Failure(ArgumentException(response.key));
      }
      if response.key in contents {
        FailureIsFinal(keys, store, i + 1, ArgumentException(response.key));
        return Failure(ArgumentException(response.key));
      }
      dates := dates[response.key := response.lastModified];
      contents := contents[response.key := response.content];
      i := i + 1;
    }
    assert keys[..i] == keys;
    r := Success(Collected(dates, contents));
  }

  /** The sort's comparison: -1, 1 or 0 as the left key's last-modified time is
      less than, greater than or equal to the right key's; reading a key absent
      from `dates` throws, the left one first. */
  function Compare(dates: map<string, int>, left: string, right: string): (r: Outcome<int, Exception>)
    ensures r.Failure? <==> left !in dates || right !in dates
    ensures r.Failure? ==> r.error == KeyNotFoundException(if left !in dates then left else right)
    ensures r.Success? ==> (r.value == -1 <==> dates[left] < dates[right])
    ensures r.Success? ==> (r.value == 0 <==> dates[left] == dates[right])
    ensures r.Success? ==> (r.value == 1 <==> dates[left] > dates[right])
  {
    if left !in dates then Failure(KeyNotFoundException(left))
    else if right !in dates then Failure(KeyNotFoundException(right))
    else if dates[left] < dates[right] then Success(-1)
    else if dates[left] > dates[right] then Success(1)
    else Success(0)
  }

  /** `left` is not later than `right`; both have a last-modified time. */
  predicate NotLater(dates: map<string, int>, left: string, right: string)
  {
    left in dates && right in dates && dates[left] <= dates[right]
  }

  /** The keys are in ascending last-modified order. */
  predicate SortedBy(dates: map<string, int>, s: seq<string>)
  {
    forall p, q :: 0 <= p < q < |s| ==> NotLater(dates, s[p], s[q])
  }

  /** Sorting a list of two or more keys compares every one of them, so every key has a time. */
  lemma SortedKeysHaveDates(dates: map<string, int>, s: seq<string>)
    requires 2 <= |s| && SortedBy(dates, s)
    ensures forall k :: k in s ==> k in dates
  {
    forall k | k in s
      ensures k in dates
    {
      var p :| 0 <= p < |s| && s[p] == k;
      if p == 0 { assert NotLater(dates, s[0], s[1]); }
      else { assert NotLater(dates, s[0], s[p]); }
    }
  }

  /** Exchanges two neighbouring entries of the list. */
  method SwapAdjacent(a: array<string>, j: int)
    requires 0 < j < a.Length
    modifies a
    ensures a[j - 1] == old(a[j]) && a[j] == old(a[j - 1])
    ensures forall m :: 0 <= m < a.Length && m != j - 1 && m != j ==> a[m] == old(a[m])
    ensures multiset(a[..]) == multiset(old(a[..]))
  {
    a[j - 1], a[j] := a[j], a[j - 1];
  }

  /** One pass of the sort: moves `a[i]` left past every later key, so that
      the first `i + 1` keys are in order, or stops at a comparison that throws. */
  method InsertAt(a: array<string>, dates: map<string, int>, i: int) returns (failure: Option<Exception>)
    requires 1 <= i < a.Length
    requires forall p, q :: 0 <= p < q < i ==> NotLater(dates, a[p], a[q])
    modifies a
    ensures multiset(a[..]) == multiset(old(a[..]))
    ensures failure == None ==> forall p, q :: 0 <= p < q <= i ==> NotLater(dates, a[p], a[q])
    ensures failure.Some? ==>
      exists k :: k in multiset(old(a[..])) && k !in dates && failure.value == InvalidOperationException(KeyNotFoundException(k))
  {
    var j := i;
    var placed := false;
    while 0 < j && !placed
      invariant 0 <= j <= i
      invariant multiset(a[..]) == multiset(old(a[..]))
      invariant forall p, q :: 0 <= p < q <= i && q != j ==> NotLater(dates, a[p], a[q])
      invariant forall q :: j < q <= i ==> NotLater(dates, a[j], a[q])
      invariant placed ==> 0 < j && NotLater(dates, a[j - 1], a[j])
      decreases j, !placed
    {
      var c := Compare(dates, a[j], a[j - 1]);
      if c.Failure? {
        var k := c.error.key;
        assert k == a[j] || k == a[j - 1];
        assert k in multiset(a[..]);
        return Some(InvalidOperationException(c.error));
      }
      if c.value < 0 {
        SwapAdjacent(a, j);
        j := j - 1;
      } else {
        placed := true;
      }
    }
    failure := None;
  }

  /** `keysInBucketList.Sort(comparison)`: an in-place sort of the key list by
      last-modified time. Equal times may end in either order. A list of fewer
      than two keys is never compared; otherwise a comparison that throws aborts
      the sort with the exception wrapped. */
  method SortByLastModified(a: array<string>, dates: map<string, int>) returns (failure: Option<Exception>)
    modifies a
    ensures multiset(a[..]) == multiset(old(a[..]))
    ensures a.Length < 2 ==> a[..] == old(a[..]) && failure == None
    ensures failure == None ==> SortedBy(dates, a[..])
    ensures failure.Some? ==>
      2 <= a.Length &&
      exists k :: k in old(a[..]) && k !in dates && failure.value == InvalidOperationException(KeyNotFoundException(k))
  {
    if a.Length < 2 {
      return None;
    }
    var i := 1;
    while i < a.Length
      invariant 1 <= i <= a.Length
      invariant multiset(a[..]) == multiset(old(a[..]))
      invariant forall p, q :: 0 <= p < q < i ==> NotLater(dates, a[p], a[q])
    {
      ghost var before := a[..];
      failure := InsertAt(a, dates, i);
      if failure.Some? {
        ghost var k :| k in multiset(before) && k !in dates && failure.value == InvalidOperationException(KeyNotFoundException(k));
        assert k in old(a[..]);
        return;
      }
      i := i + 1;
    }
    failure := None;
  }

  /** The contents of `keys`, in order. */
  function Projection(contents: map<string, string>, keys: seq<string>): (r: seq<string>)
    requires forall k :: k in keys ==> k in contents
    ensures |r| == |keys|
    ensures forall i :: 0 <= i < |keys| ==> r[i] == contents[keys[i]]
  {
    if keys == [] then []
    else Projection(contents, keys[..|keys| - 1]) + [contents[keys[|keys| - 1]]]
  }

  /** The index of the first key absent from `contents`. */
  predicate FirstMissing(keys: seq<string>, contents: map<string, string>, i: int)
  {
    && 0 <= i < |keys| && keys[i] !in contents
    && forall j :: 0 <= j < i ==> keys[j] in contents
  }

  /** The `ForEach` that appends each sorted key's content to the results;
      the first absent key throws. */
  method ProjectContents(keys: seq<string>, contents: map<string, string>) returns (r: Outcome<seq<string>, Exception>)
    ensures r.Success? <==> forall k :: k in keys ==> k in contents
    ensures r.Success? ==> r.value == Projection(contents, keys)
    ensures r.Failure? ==> exists i :: FirstMissing(keys, contents, i) && r.error == KeyNotFoundException(keys[i])
  {
    var results: seq<string> := [];
    for i := 0 to |keys|
      invariant forall j :: 0 <= j < i ==> keys[j] in contents
      invariant results == Projection(contents, keys[..i])
    {
      if keys[i] !in contents {
        assert FirstMissing(keys, contents, i);
        return Failure(KeyNotFoundException(keys[i]));
      }
      assert keys[..i + 1][..i] == keys[..i];
      results := results + [contents[keys[i]]];
    }
    assert keys[..|keys|] == keys;
    r := Success(results);
  }

  /** How the try block of `Get` ends: it produces the sorted keys and their
      contents, or it raises an exception. */
  datatype TryOutcome = Completed(order: seq<string>, messages: seq<string>) | Raised(error: Exception)

  /** The outcomes the try block may produce once the listing is known. The
      sort does not break ties and, when a key has no time, which missing key
      the comparison meets first is the list sort's own business. */
  ghost predicate TryBlockSpec(keys: seq<string>, store: string -> FetchResponse, o: TryOutcome)
  {
    match Gathered(keys, store)
    case Failure(e) => o == Raised(e)
    case Success(c) =>
      if 2 <= |keys| && exists k :: k in keys && k !in c.dates then
        exists k :: k in keys && k !in c.dates && o == Raised(InvalidOperationException(KeyNotFoundException(k)))
      else if |keys| == 1 && keys[0] !in c.contents then
        o == Raised(KeyNotFoundException(keys[0]))
      else
        && o.Completed?
        && multiset(o.order) == multiset(keys)
        && SortedBy(c.dates, o.order)
        && (forall k :: k in o.order ==> k in c.contents)
        && o.messages == Projection(c.contents, o.order)
  }

  /** The try block of `Get`: run the tasks, sort the list of keys, project it. */
  method Assemble(keys: seq<string>, store: string -> FetchResponse) returns (o: TryOutcome)
    ensures TryBlockSpec(keys, store, o)
  {
    var gathered := FetchAll(keys, store);
    if gathered.Failure? {
      return Raised(gathered.error);
    }
    var c := gathered.value;
    GatheredRecords(keys, store, c);
    var list := new string[|keys|](i requires 0 <= i < |keys| => keys[i]);
    assert list[..] == keys;
    var failure := SortByLastModified(list, c.dates);
    if failure.Some? {
      return Raised(failure.value);
    }
    var order := list[..];
    assert forall k :: k in order <==> k in multiset(order);
    assert forall k :: k in keys <==> k in multiset(keys);
    if 2 <= |keys| {
      SortedKeysHaveDates(c.dates, order);
    }
    var projected := ProjectContents(order, c.contents);
    if projected.Failure? {
      return Raised(projected.error);
    }
    o := Completed(order, projected.value);
  }

  /** The status a response carries after the catch arms: a store error sets
      it to the store's status code; everything else leaves it alone. */
  function StatusAfter(o: TryOutcome, status: int): (s: int)
    ensures o.Raised? && o.error.AmazonS3Exception? ==> s == o.error.status
    ensures !(o.Raised? && o.error.AmazonS3Exception?) ==> s == status
  {
    if o.Raised? && o.error.AmazonS3Exception? then o.error.status else status
  }

  /** The envelope `Get` returns for an outcome of its try block: `Ok` with
      the contents, `AwsError` for a store exception and `Error` for any
      other, each error with the exception's text and no contents. */
  function Catch(o: TryOutcome): (r: GetResult)
    ensures r.responseCode == Ok <==> o.Completed?
    ensures r.responseCode == AwsError <==> o.Raised? && o.error.AmazonS3Exception?
    ensures r.responseCode == Error <==> o.Raised? && !o.error.AmazonS3Exception?
    ensures r.messages.Some? <==> o.Completed?
    ensures o.Completed? ==> r.messages.value == o.messages
    ensures o.Raised? ==> r.message == Describe(o.error)
    ensures r.message == "" <==> r.responseCode == Ok
  {
    match o
    case Completed(_, messages) => OkResult(messages)
    case Raised(e) =>
      if e.AmazonS3Exception? then FailedResult(AwsError, Describe(e))
      else FailedResult(Error, Describe(e))
  }
}
