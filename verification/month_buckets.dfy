/** Step 1 of the year view: records grouped by `(year, month)` of their
    date, in the order the keys are first met (a plain object used as a
    string-keyed dictionary keeps that order), each bucket holding its
    records in input order. */
module MonthBuckets {
  import opened Options
  import opened Calendar
  import opened Observations

  datatype Bucket = Bucket(key: Option<MonthKey>, items: seq<Observation>)

  /** The records whose bucket key is `key`, in input order. */
  function InMonth(rs: seq<Observation>, key: Option<MonthKey>): seq<Observation> {
    if |rs| == 0 then []
    else InMonth(rs[..|rs| - 1], key) + (if RecordMonth(rs[|rs| - 1]) == key then [rs[|rs| - 1]] else [])
  }

  predicate DistinctKeys(bs: seq<Bucket>) {
    forall i, j :: 0 <= i < j < |bs| ==> bs[i].key != bs[j].key
  }

  /** Number of records held by all buckets together. */
  function TotalSize(bs: seq<Bucket>): nat {
    if |bs| == 0 then 0 else |bs[0].items| + TotalSize(bs[1..])
  }

  /** `bs` is a grouping of `rs` by month: one bucket per key that occurs,
      each holding exactly the records with that key, in input order. */
  predicate IsGrouping(bs: seq<Bucket>, rs: seq<Observation>) {
    && DistinctKeys(bs)
    && (forall i :: 0 <= i < |bs| ==> bs[i].items == InMonth(rs, bs[i].key) && bs[i].items != [])
    && (forall r :: r in rs ==> exists i :: 0 <= i < |bs| && bs[i].key == RecordMonth(r))
  }

  /** `buckets[key].push(r)`, creating the bucket at the end when absent. */
  function AddToBuckets(bs: seq<Bucket>, key: Option<MonthKey>, r: Observation): (res: seq<Bucket>)
    ensures |bs| <= |res| <= |bs| + 1
    ensures TotalSize(res) == TotalSize(bs) + 1
  {
    if |bs| == 0 then [Bucket(key, [r])]
    else if bs[0].key == key then
      var res := [Bucket(key, bs[0].items + [r])] + bs[1..];
      assert res[1..] == bs[1..];
      res
    else
      var res := [bs[0]] + AddToBuckets(bs[1..], key, r);
      assert res[1..] == AddToBuckets(bs[1..], key, r);
      res
  }

  /** Adding never moves a bucket, and opens a new one at the end exactly
      when no bucket had the key. */
  lemma {:induction false} AddToBucketsKeys(bs: seq<Bucket>, key: Option<MonthKey>, r: Observation)
    ensures var res := AddToBuckets(bs, key, r);
      && (|res| == |bs| + 1 <==> forall i :: 0 <= i < |bs| ==> bs[i].key != key)
      && (forall i :: 0 <= i < |bs| ==> res[i].key == bs[i].key)
      && (|res| == |bs| + 1 ==> res[|bs|] == Bucket(key, [r]))
  {
    if |bs| > 0 && bs[0].key != key {
      AddToBucketsKeys(bs[1..], key, r);
      var res := AddToBuckets(bs, key, r);
      var rest := AddToBuckets(bs[1..], key, r);
      assert res == [bs[0]] + rest;
      assert forall i :: 1 <= i < |bs| ==> bs[i].key == bs[1..][i - 1].key;
    }
  }

  /** Adding keeps the keys pairwise distinct. */
  lemma AddToBucketsDistinct(bs: seq<Bucket>, key: Option<MonthKey>, r: Observation)
    requires DistinctKeys(bs)
    ensures DistinctKeys(AddToBuckets(bs, key, r))
  {
    AddToBucketsKeys(bs, key, r);
  }

  /** With distinct keys, only the bucket keyed `key` grows, by `r`. */
  lemma {:induction false} AddToBucketsItems(bs: seq<Bucket>, key: Option<MonthKey>, r: Observation)
    requires DistinctKeys(bs)
    ensures var res := AddToBuckets(bs, key, r);
      forall i :: 0 <= i < |bs| ==> res[i].items == bs[i].items + (if bs[i].key == key then [r] else [])
  {
    if |bs| > 0 {
      var res := AddToBuckets(bs, key, r);
      if bs[0].key == key {
        assert forall i :: 1 <= i < |bs| ==> bs[i].key != key;
        assert forall i :: 1 <= i < |bs| ==> res[i] == bs[i];
      } else {
        var tail := bs[1..];
        assert DistinctKeys(tail) by {
          assert forall i :: 0 <= i < |tail| ==> tail[i] == bs[i + 1];
        }
        AddToBucketsItems(tail, key, r);
        var rest := AddToBuckets(tail, key, r);
        assert res == [bs[0]] + rest;
        forall i | 1 <= i < |bs|
          ensures res[i].items == bs[i].items + (if bs[i].key == key then [r] else [])
        {
          assert res[i] == rest[i - 1] && bs[i] == tail[i - 1];
        }
      }
    }
  }

  lemma AddKeepsGrouping(bs: seq<Bucket>, rs: seq<Observation>, r: Observation, rs': seq<Observation>)
    requires IsGrouping(bs, rs) && rs' == rs + [r]
    ensures IsGrouping(AddToBuckets(bs, RecordMonth(r), r), rs')
  {
    var key := RecordMonth(r);
    var res := AddToBuckets(bs, key, r);
    AddToBucketsKeys(bs, key, r);
    AddToBucketsItems(bs, key, r);
    AddToBucketsDistinct(bs, key, r);
    assert rs'[..|rs'| - 1] == rs;
    forall i | 0 <= i < |res|
      ensures res[i].items == InMonth(rs', res[i].key) && res[i].items != []
    {
      if i == |bs| {
        if InMonth(rs, key) != [] {
          var x := InMonth(rs, key)[0];
          InMonthMember(rs, key, x);
        }
      }
    }
    forall x | x in rs'
      ensures exists i :: 0 <= i < |res| && res[i].key == RecordMonth(x)
    {
      if x in rs {
        var i :| 0 <= i < |bs| && bs[i].key == RecordMonth(x);
        assert res[i].key == RecordMonth(x);
      } else if |res| == |bs| {
        var i :| 0 <= i < |bs| && bs[i].key == key;
        assert res[i].key == key;
      } else {
        assert res[|bs|].key == key;
      }
    }
  }

  /** A record is in the `key` list exactly when it is an input record with
      that key. */
  lemma {:induction false} InMonthMember(rs: seq<Observation>, key: Option<MonthKey>, x: Observation)
    ensures x in InMonth(rs, key) <==> x in rs && RecordMonth(x) == key
  {
    if |rs| > 0 {
      InMonthMember(rs[..|rs| - 1], key, x);
      assert rs == rs[..|rs| - 1] + [rs[|rs| - 1]];
    }
  }

  /** `rawHistory.forEach(item => buckets[key].push(item))`. */
  function GroupByMonth(rs: seq<Observation>): seq<Bucket> {
    if |rs| == 0 then []
    else
      var r := rs[|rs| - 1];
      AddToBuckets(GroupByMonth(rs[..|rs| - 1]), RecordMonth(r), r)
  }

  /** The bucketing pass builds a grouping of the records by month and
      neither loses nor duplicates a record. */
  lemma {:induction false} GroupByMonthIsGrouping(rs: seq<Observation>)
    ensures IsGrouping(GroupByMonth(rs), rs)
    ensures TotalSize(GroupByMonth(rs)) == |rs|
  {
    if |rs| > 0 {
      var r := rs[|rs| - 1];
      var prefix := rs[..|rs| - 1];
      var bs := GroupByMonth(prefix);
      GroupByMonthIsGrouping(prefix);
      assert rs == prefix + [r];
      AddKeepsGrouping(bs, prefix, r, rs);
    }
  }

  /** `buckets[key]`: the items of the bucket with that key, if any. */
  function Lookup(bs: seq<Bucket>, key: Option<MonthKey>): (r: Option<seq<Observation>>)
    ensures r.Some? ==> exists i :: 0 <= i < |bs| && bs[i].key == key && bs[i].items == r.value
    ensures r.None? <==> forall i :: 0 <= i < |bs| ==> bs[i].key != key
  {
    if |bs| == 0 then None
    else if bs[0].key == key then Some(bs[0].items)
    else
      var r := Lookup(bs[1..], key);
      assert forall i :: 1 <= i < |bs| ==> bs[i] == bs[1..][i - 1];
      r
  }

  /** Looking a month up in the grouping yields exactly that month's
      records in input order, and nothing when the month has none. */
  lemma LookupGroup(rs: seq<Observation>, key: Option<MonthKey>)
    ensures Lookup(GroupByMonth(rs), key) == if InMonth(rs, key) == [] then None else Some(InMonth(rs, key))
  {
    var bs := GroupByMonth(rs);
    GroupByMonthIsGrouping(rs);
    if InMonth(rs, key) != [] {
      var x := InMonth(rs, key)[0];
      InMonthMember(rs, key, x);
      var i :| 0 <= i < |bs| && bs[i].key == RecordMonth(x);
      assert Lookup(bs, key).Some?;
    }
  }

  /** Every record is in exactly one bucket: the one keyed by its own month. */
  lemma RecordInOwnBucket(rs: seq<Observation>, r: Observation, key: Option<MonthKey>)
    requires r in rs
    ensures Lookup(GroupByMonth(rs), key).Some? && r in Lookup(GroupByMonth(rs), key).value
        <==> key == RecordMonth(r)
  {
    LookupGroup(rs, key);
    InMonthMember(rs, key, r);
  }
}
