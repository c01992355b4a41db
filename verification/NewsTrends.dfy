// The news trends of src/core/news_trends.cpp: click shares per category, trained into one buffer and published by
// swapping it with the other.

module News {
  import opened Reals
  import opened Sums
  import opened Options
  import opened DistTables
  import opened Counters

  /** trainClick: clicks that have not expired count, items do not. */
  function Observe(m: map<int, real>, expired: int, e: Event): map<int, real> {
    if e.ClickEvent? && e.click.publishTime >= expired then AddTo(m, e.click.category, 1.0) else m
  }

  function ObserveAll(expired: int, events: seq<Event>): map<int, real> {
    if events == [] then map[] else Observe(ObserveAll(expired, events[..|events| - 1]), expired, events[|events| - 1])
  }

  ghost function Unexpired(expired: int): Event -> bool {
    (e: Event) => e.ClickEvent? && e.click.publishTime >= expired
  }

  ghost function UnexpiredIn(expired: int, c: int): Event -> bool {
    (e: Event) => e.ClickEvent? && e.click.publishTime >= expired && e.click.category == c
  }

  /** The published map: every category with an unexpired click, with its share of all unexpired clicks. */
  ghost predicate IsTrend(m: map<int, real>, expired: int, events: seq<Event>) {
    && (forall c :: c in m <==> Tally(events, UnexpiredIn(expired, c)) > 0.0)
    && (forall c :: c in m ==> Tally(events, Unexpired(expired)) > 0.0)
    && (forall c :: c in m ==> m[c] == Tally(events, UnexpiredIn(expired, c)) / Tally(events, Unexpired(expired)))
  }

  lemma {:induction false} ObserveTallies(expired: int, events: seq<Event>)
    ensures var m := ObserveAll(expired, events);
            && (forall c :: At(m, c) == Tally(events, UnexpiredIn(expired, c)))
            && (forall c :: c in m ==> m[c] >= 1.0)
            && Total(m) == Tally(events, Unexpired(expired))
  {
    if events != [] {
      var before := events[..|events| - 1];
      ObserveTallies(expired, before);
      ObserveAdds(ObserveAll(expired, before), expired, events[|events| - 1]);
    }
  }

  lemma ObserveAdds(m: map<int, real>, expired: int, e: Event)
    ensures Total(Observe(m, expired, e)) == Total(m) + (if Unexpired(expired)(e) then 1.0 else 0.0)
  {
    if Unexpired(expired)(e) {
      var c := e.click.category;
      var m' := Observe(m, expired, e);
      SumPick(m'.Keys, Entries(m'), c);
      SumPick(m'.Keys, Entries(m), c);
      SumSame(m'.Keys - {c}, Entries(m'), Entries(m));
      SumWithin(m'.Keys, m.Keys, Entries(m));
    }
  }

  ghost function Normalised(m: map<int, real>): map<int, real> {
    map c | c in m :: Fraction(m[c], OneIfNone(Total(m)))
  }

  function Fraction(x: real, total: real): real
    requires total > 0.0
  {
    x / total
  }

  lemma CountsWithinTotal(expired: int, events: seq<Event>)
    ensures var counts := ObserveAll(expired, events);
            && (forall c :: c in counts ==> 1.0 <= counts[c] <= Total(counts))
            && (counts != map[] ==> Total(counts) >= 1.0)
  {
    ObserveTallies(expired, events);
    var counts := ObserveAll(expired, events);
    SumBounds(counts.Keys, Entries(counts));
    forall c | c in counts ensures 1.0 <= counts[c] <= Total(counts) {
      assert Entries(counts)(c) == counts[c];
    }
    SomeKey(counts);
  }

  /** Normalising the counts publishes the trend; its values are positive and sum to one. */
  lemma TrendIsNormalised(expired: int, events: seq<Event>)
    ensures var m := Normalised(ObserveAll(expired, events));
            && IsTrend(m, expired, events)
            && (forall c :: c in m ==> m[c] > 0.0)
            && (m != map[] ==> Total(m) == 1.0)
  {
    hide Total;
    var counts := ObserveAll(expired, events);
    var m := Normalised(counts);
    CountsWithinTotal(expired, events);
    ObserveTallies(expired, events);
    forall c ensures c in m <==> Tally(events, UnexpiredIn(expired, c)) > 0.0 {
      assert At(counts, c) == Tally(events, UnexpiredIn(expired, c));
    }
    forall c | c in counts ensures Fraction(counts[c], Total(counts)) > 0.0 {
      Scaled(0.0, counts[c], Total(counts));
    }
    if counts != map[] {
      SharesSumToOne(counts, m);
    } else {
      assert m == map[];
    }
  }

  lemma NormalisedIs(m: map<int, real>, counts: map<int, real>, total: real)
    requires total == OneIfNone(Total(counts)) && m.Keys == counts.Keys
    requires forall c :: c in counts ==> m[c] == Fraction(counts[c], total)
    ensures m == Normalised(counts)
  {
    SameMap(m, Normalised(counts));
  }

  lemma SameMap(m: map<int, real>, m': map<int, real>)
    requires forall c :: (c in m <==> c in m') && (c in m ==> m[c] == m'[c])
    ensures m == m'
  {
    forall c ensures (c in m <==> c in m') && (c in m ==> m[c] == m'[c]) {}
  }

  lemma SharesSumToOne(counts: map<int, real>, m: map<int, real>)
    requires Total(counts) > 0.0 && m == Normalised(counts)
    ensures Total(m) == 1.0
  {
    hide Sum;
    var ks, total := counts.Keys, Total(counts);
    assert m.Keys == ks;
    forall c | c in ks ensures Times(total, Entries(m))(c) == Entries(counts)(c) {
      Scaled(0.0, counts[c], total);
      assert m[c] == Fraction(counts[c], total);
    }
    SumSame(ks, Times(total, Entries(m)), Entries(counts));
    SumTimes(ks, total, Entries(m));
    assert Sum(ks, Times(total, Entries(m))) == total * Sum(ks, Entries(m));
    CancelOne(Sum(ks, Entries(m)), total, Sum(ks, Times(total, Entries(m))));
  }

  // ----- The table file -----

  datatype Tag = Tag(id: int, power: real)

  /** loadDistribution: the first tag of a category wins. */
  function Loaded(tags: seq<Tag>): map<int, real> {
    if tags == [] then map[]
    else
      var m := Loaded(tags[..|tags| - 1]);
      var t := tags[|tags| - 1];
      if t.id in m then m else m[t.id := t.power]
  }

  /** The loaded map holds exactly the listed categories, each with the power of its first tag. */
  lemma {:induction false} FirstTagWins(tags: seq<Tag>, i: nat)
    requires i < |tags| && forall k :: 0 <= k < i ==> tags[k].id != tags[i].id
    ensures tags[i].id in Loaded(tags) && Loaded(tags)[tags[i].id] == tags[i].power
    ensures forall c :: c in Loaded(tags) ==> exists k :: 0 <= k < |tags| && tags[k].id == c
    decreases |tags|
  {
    LoadedListed(tags);
    var n := |tags| - 1;
    if i < n {
      FirstTagWins(tags[..n], i);
    } else {
      LoadedListed(tags[..n]);
    }
  }

  lemma {:induction false} LoadedListed(tags: seq<Tag>)
    ensures forall c :: c in Loaded(tags) ==> exists k :: 0 <= k < |tags| && tags[k].id == c
  {
    if tags != [] {
      var n := |tags| - 1;
      LoadedListed(tags[..n]);
      forall c | c in Loaded(tags) ensures exists k :: 0 <= k < |tags| && tags[k].id == c {
        if c in Loaded(tags[..n]) {
          var k :| 0 <= k < n && tags[..n][k].id == c;
          assert tags[k].id == c;
        } else {
          assert tags[n].id == c;
        }
      }
    }
  }

  class Buffer {
    var entries: map<int, real>

    constructor ()
      ensures entries == map[]
    {
      entries := map[];
    }
  }

  class NewsTrends {
    const table: DistTable
    var training: Buffer
    var published: Buffer
    var expired: int
    var file: Option<seq<Tag>>

    constructor (table: DistTable)
      ensures this.table == table && Valid() && fresh(training) && fresh(published)
      ensures file == None && published.entries == map[]
    {
      this.table := table;
      training := new Buffer();
      published := new Buffer();
      expired, file := 0, None;
    }

    ghost predicate Valid()
      reads this
    {
      training != published
    }

    method TrainClick(e: Event)
      requires Valid()
      modifies training
      ensures training.entries == Observe(old(training.entries), expired, e)
    {
      if e.ClickEvent? {
        if e.click.publishTime < expired { return; }
        var c := e.click.category;
        if c in training.entries {
          training.entries := training.entries[c := training.entries[c] + 1.0];
        } else {
          training.entries := training.entries[c := 1.0];
        }
      }
    }

    /** Counts the window of sealed logs, normalises in place, writes the table file and publishes the buffer. */
    method Train(now: int)
      requires Valid()
      modifies this, training
      ensures Valid() && published == old(training) && training == old(published)
      ensures expired == now - table.window * 3600
      ensures IsTrend(published.entries, expired,
                WindowEvents(table.codec, table.log.dir.sealed, table.log.lastCounter - 1, table.window))
      ensures forall c :: c in published.entries ==> published.entries[c] > 0.0
      ensures published.entries != map[] ==> Total(published.entries) == 1.0
      ensures file.Some? && Loaded(file.value) == published.entries
      ensures training.entries == old(published.entries)
    {
      hide Tally, Total, WindowEvents, IsTrend, Normalised;
      training.entries := map[];
      expired := now - table.window * SECONDS_PER_HOUR;
      var events := table.TrainPeriodicLog();
      for i := 0 to |events|
        invariant Valid() && training == old(training) && published == old(published)
        invariant expired == now - table.window * SECONDS_PER_HOUR
        invariant published.entries == old(published.entries)
        invariant training.entries == ObserveAll(expired, events[..i])
      {
        assert events[..i + 1][..i] == events[..i];
        TrainClick(events[i]);
      }
      assert events[..|events|] == events;
      TrendIsNormalised(expired, events);
      var tags := DumpTable();
      training, published := published, training;
      file := Some(tags);
    }

    /** Divides every count by the total, in place, and lists the result. */
    method DumpTable() returns (tags: seq<Tag>)
      requires Valid()
      modifies training
      ensures training.entries == Normalised(old(training.entries)) && Loaded(tags) == training.entries
    {
      hide Total;
      ghost var counts := training.entries;
      var total := SumValues(training.entries);
      if total <= 0.0 { total := 1.0; }
      tags := [];
      var rest := training.entries.Keys;
      while rest != {}
        invariant rest <= counts.Keys && total == OneIfNone(Total(counts)) > 0.0 && training.entries.Keys == counts.Keys
        invariant forall c :: c in rest ==> training.entries[c] == counts[c]
        invariant forall c :: c in counts && c !in rest ==> training.entries[c] == Fraction(counts[c], total)
        invariant forall c :: c in Loaded(tags) <==> c in counts && c !in rest
        invariant forall c :: c in Loaded(tags) ==> Loaded(tags)[c] == training.entries[c]
        decreases |rest|
      {
        ghost var member := Member(rest);
        var k :| k in rest;
        training.entries := training.entries[k := Fraction(training.entries[k], total)];
        assert (tags + [Tag(k, training.entries[k])])[..|tags|] == tags;
        tags := tags + [Tag(k, training.entries[k])];
        rest := rest - {k};
      }
      NormalisedIs(training.entries, counts, total);
      SameMap(Loaded(tags), training.entries);
    }

    /** Loads the table file into the idle buffer and publishes it; without a file nothing published changes. */
    method Reload() returns (ok: bool)
      requires Valid()
      modifies this, training
      ensures Valid() && file == old(file) && ok == file.Some?
      ensures ok ==> published == old(training) && training == old(published) && published.entries == Loaded(file.value)
      ensures !ok ==> published == old(published) && training == old(training)
      ensures old(published).entries == old(published.entries)
    {
      training.entries := map[];
      if file.None? { return false; }
      var tags := file.value;
      for i := 0 to |tags|
        invariant Valid() && training == old(training) && published == old(published) && file == old(file)
        invariant published.entries == old(published.entries)
        invariant training.entries == Loaded(tags[..i])
      {
        assert tags[..i + 1][..i] == tags[..i];
        if tags[i].id !in training.entries {
          training.entries := training.entries[tags[i].id := tags[i].power];
        }
      }
      assert tags[..|tags|] == tags;
      training, published := published, training;
      ok := true;
    }

    /** Training and then reloading publishes the same trend twice, each time from the other buffer. */
    method TrainAndReload(now: int)
      requires Valid()
      modifies this, training, published
      ensures Valid() && published == old(published) && training == old(training)
      ensures published.entries == training.entries
      ensures IsTrend(published.entries, now - table.window * 3600,
                WindowEvents(table.codec, table.log.dir.sealed, table.log.lastCounter - 1, table.window))
    {
      Train(now);
      var ok := Reload();
    }
  }
}
