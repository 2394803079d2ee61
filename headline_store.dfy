/** The in-memory headline store of `hefoki-database/headlines-interface.js`:
    `groupHeadlinesByDate` and the `HeadlinesInterface` adapter, whose
    `headline_days` object maps a date to the headlines of that day. */
module HeadlineStore {
  import opened Js
  import opened HeadlineDiff

  /** `groupHeadlinesByDate`: each headline is pushed onto the list of its
      date (`null` dates under "null"), dates in order of first appearance. */
  method GroupHeadlinesByDate(hs: seq<Headline>) returns (byDate: Dict<seq<Headline>>)
    ensures DistinctKeys(byDate)
    ensures forall k :: Get(byDate, k) == if OnDate(hs, k) == [] then None else Some(OnDate(hs, k))
    ensures multiset(Flatten(byDate)) == multiset(hs)
  {
    byDate := [];
    for i := 0 to |hs|
      invariant byDate == Grouped(hs[..i])
    {
      assert hs[..i + 1][..i] == hs[..i];
      byDate := Push(byDate, hs[i]);
    }
    assert hs[..|hs|] == hs;
    GroupedDistinct(hs);
    GroupedPermutation(hs);
    forall k
      ensures Get(byDate, k) == if OnDate(hs, k) == [] then None else Some(OnDate(hs, k))
    {
      GroupedLookup(hs, k);
    }
  }

  /** The stored days, as a map from date to that day's headlines. */
  type Days = map<string, seq<Headline>>

  /** `days[date]`: the day's headlines, undefined (`None`) when absent. */
  function Lookup(days: Days, date: string): Option<seq<Headline>> {
    if date in days then Some(days[date]) else None
  }

  /** The object `getHeadlineDays(dates)` builds from an array: each requested
      date, in order of first request, holding the stored day or undefined. */
  function Fetched(days: Days, dates: seq<string>): Dict<Option<seq<Headline>>>
    decreases |dates|
  {
    if dates == [] then []
    else DictSet(Fetched(days, dates[..|dates| - 1]), dates[|dates| - 1], Lookup(days, dates[|dates| - 1]))
  }

  /** Its keys are exactly the requested dates, each holding the stored day. */
  lemma {:induction false} FetchedGet(days: Days, dates: seq<string>, date: string)
    ensures Get(Fetched(days, dates), date) == if date in dates then Some(Lookup(days, date)) else None
    ensures DistinctKeys(Fetched(days, dates))
    decreases |dates|
  {
    if dates != [] {
      var init, last := dates[..|dates| - 1], dates[|dates| - 1];
      FetchedGet(days, init, date);
      DictSetGet(Fetched(days, init), last, Lookup(days, last), date);
      DictSetDistinct(Fetched(days, init), last, Lookup(days, last));
      assert dates == init + [last];
    }
  }

  /** `updateHeadlineDays(d)` on the stored days: each entry of `d` in turn
      overwrites its date. */
  function Assigned(days: Days, d: Dict<seq<Headline>>): Days
    decreases |d|
  {
    if d == [] then days else Assigned(days[d[0].0 := d[0].1], d[1..])
  }

  /** The dates of `d` get `d`'s days; every other date keeps its day, or
      stays absent. */
  lemma {:induction false} AssignedLookup(days: Days, d: Dict<seq<Headline>>, date: string)
    requires DistinctKeys(d)
    ensures Lookup(Assigned(days, d), date) == if Get(d, date).Some? then Get(d, date) else Lookup(days, date)
    decreases |d|
  {
    if d != [] {
      AssignedLookup(days[d[0].0 := d[0].1], d[1..], date);
      if date == d[0].0 {
        assert Get(d[1..], date).None?;
      }
    }
  }

  /** Storing `d` and then asking for `d`'s dates gives back exactly `d`'s
      days (each as a defined value). */
  lemma RoundTrip(days: Days, d: Dict<seq<Headline>>, date: string)
    requires DistinctKeys(d)
    ensures Get(Fetched(Assigned(days, d), Keys(d)), date)
         == if Get(d, date).Some? then Some(Get(d, date)) else None
  {
    FetchedGet(Assigned(days, d), Keys(d), date);
    AssignedLookup(days, d, date);
    KeysGet(d, date);
  }

  /** `HeadlinesInterface`, the in-memory adapter. `headline_days` is
      undefined until `connect` runs; reading or writing it before then
      throws a TypeError. */
  class HeadlinesInterface {
    var headlineDays: Option<Days>

    constructor()
      ensures headlineDays == None
    {
      headlineDays := None;
    }

    /** `connect`: the store starts empty. */
    method Connect()
      modifies this
      ensures headlineDays == Some(map[])
    {
      headlineDays := Some(map[]);
    }

    /** `getHeadlineDays(dates)` for an array of dates. */
    method GetHeadlineDays(dates: seq<string>) returns (r: Result<Dict<Option<seq<Headline>>>>)
      ensures r.Err? <==> headlineDays.None? && dates != []
      ensures r.Ok? ==> DistinctKeys(r.value)
      ensures r.Ok? ==> forall date ::
        Get(r.value, date) == if date in dates then Some(Lookup(headlineDays.value, date)) else None
    {
      var fetched: Dict<Option<seq<Headline>>> := [];
      for i := 0 to |dates|
        invariant headlineDays.Some? ==> fetched == Fetched(headlineDays.value, dates[..i])
        invariant headlineDays.None? ==> i == 0 && fetched == []
      {
        if headlineDays.None? {
          return Err(TypeError("Cannot read properties of undefined (reading '" + dates[i] + "')"));
        }
        assert dates[..i + 1][..i] == dates[..i];
        fetched := DictSet(fetched, dates[i], Lookup(headlineDays.value, dates[i]));
      }
      if headlineDays.Some? {
        assert dates[..|dates|] == dates;
        forall date
          ensures Get(fetched, date) == if date in dates then Some(Lookup(headlineDays.value, date)) else None
        {
          FetchedGet(headlineDays.value, dates, date);
        }
        FetchedGet(headlineDays.value, dates, "");
      }
      return Ok(fetched);
    }

    /** `getHeadlineDays(date)` for anything that is not an array: a
        one-element array with the stored day, or null. */
    method GetHeadlineDay(date: string) returns (r: Result<seq<Option<seq<Headline>>>>)
      ensures r.Err? <==> headlineDays.None?
      ensures r.Ok? ==> r.value == [Lookup(headlineDays.value, date)]
    {
      if headlineDays.None? {
        return Err(TypeError("Cannot read properties of undefined (reading '" + date + "')"));
      }
      return Ok([Lookup(headlineDays.value, date)]);
    }

    /** `updateHeadlineDays(d)`: each entry of `d` overwrites its date. */
    method UpdateHeadlineDays(d: Dict<seq<Headline>>) returns (r: Result<()>)
      modifies this
      ensures r.Err? <==> old(headlineDays).None? && d != []
      ensures r.Ok? && old(headlineDays).Some? ==> headlineDays == Some(Assigned(old(headlineDays).value, d))
      ensures d == [] || r.Err? ==> headlineDays == old(headlineDays)
    {
      if d == [] {
        return Ok(());
      }
      if headlineDays.None? {
        return Err(TypeError("Cannot set properties of undefined (setting '" + d[0].0 + "')"));
      }
      var i := 0;
      ghost var start := headlineDays.value;
      while i < |d|
        invariant 0 <= i <= |d|
        invariant headlineDays.Some? && Assigned(start, d) == Assigned(headlineDays.value, d[i..])
      {
        assert d[i..][1..] == d[i + 1..];
        headlineDays := Some(headlineDays.value[d[i].0 := d[i].1]);
        i := i + 1;
      }
      return Ok(());
    }
  }

  /** After `connect` and `updateHeadlineDays(d)`, asking for `d`'s dates
      returns `d`'s days. */
  method StoreThenFetch(d: Dict<seq<Headline>>) returns (fetched: Result<Dict<Option<seq<Headline>>>>)
    requires DistinctKeys(d)
    ensures fetched.Ok?
    ensures forall date :: Get(fetched.value, date) == if Get(d, date).Some? then Some(Get(d, date)) else None
  {
    var store := new HeadlinesInterface();
    store.Connect();
    var _ := store.UpdateHeadlineDays(d);
    assert store.headlineDays == Some(Assigned(map[], d));
    fetched := store.GetHeadlineDays(Keys(d));
    forall date
      ensures Get(fetched.value, date) == if Get(d, date).Some? then Some(Get(d, date)) else None
    {
      AssignedLookup(map[], d, date);
      KeysGet(d, date);
    }
  }
}
