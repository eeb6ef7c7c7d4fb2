/**
 * The upload gallery of `gallery.rs`: the SQL text and parameter list `GalleryStore::query`
 * assembles from the optional filters, the timestamp rule of `GalleryStore::insert`, and the
 * sorted, duplicate-free host list of `gallery_list_hosts`. SQLite itself, the clock and the
 * RFC 3339 date codec are parameters.
 */
module Gallery {
  import opened Wrappers
  import opened Text
  import Sorting

  /** A bound SQL parameter (`rusqlite::types::Value`, the two kinds used here). */
  datatype SqlValue = SqlText(text: string) | SqlInteger(n: int)

  /** `GalleryQuery`: every filter optional. */
  datatype GalleryQuery = GalleryQuery(
    fileName: Option<string>,
    host: Option<string>,
    startUtc: Option<string>,
    endUtc: Option<string>,
    minFilesize: Option<int>,
    maxFilesize: Option<int>)

  /**
   * `parse_datetime` followed by `to_rfc3339`: `parse` reads an RFC 3339 text into an instant
   * (normalised to UTC), `format` writes an instant back in RFC 3339.
   */
  datatype DateCodec = DateCodec(parse: string -> Result<int, string>, format: int -> string)

  const BaseSql: string :=
    "SELECT id, file_name, url, host, " + "delete_marker, inserted_at, filesize " + "FROM gallery_items WHERE 1=1"
  const OrderSql: string := " ORDER BY inserted_at DESC, id DESC"

  /** The six filters, in the order the query appends them. */
  datatype FilterKind = ByName | ByHost | FromTime | UntilTime | MinSize | MaxSize

  function Rank(k: FilterKind): nat {
    match k
    case ByName => 0
    case ByHost => 1
    case FromTime => 2
    case UntilTime => 3
    case MinSize => 4
    case MaxSize => 5
  }

  /** The clause each filter appends, up to its placeholder. */
  function ClauseHead(k: FilterKind): (s: string)
    ensures '?' !in s
  {
    match k
    case ByName => " AND file_name LIKE "
    case ByHost => " AND host = "
    case FromTime => " AND inserted_at >= "
    case UntilTime => " AND inserted_at <= "
    case MinSize => " AND filesize >= "
    case MaxSize => " AND filesize <= "
  }

  /** The clause each filter appends: exactly one placeholder, at its end. */
  function ClauseSql(k: FilterKind): (s: string)
    ensures Count(s, '?') == 1 && s[|s| - 1] == '?'
  {
    CountAbsent(ClauseHead(k), '?');
    CountConcat(ClauseHead(k), "?", '?');
    ClauseHead(k) + "?"
  }

  /** An active filter: its kind and the value bound to its placeholder. */
  datatype Filter = Filter(kind: FilterKind, param: SqlValue)

  /** Whether the query asks for a filter of kind `k`. */
  predicate Asks(q: GalleryQuery, k: FilterKind) {
    match k
    case ByName => q.fileName.Some?
    case ByHost => q.host.Some?
    case FromTime => q.startUtc.Some?
    case UntilTime => q.endUtc.Some?
    case MinSize => q.minFilesize.Some?
    case MaxSize => q.maxFilesize.Some?
  }

  /** The filter for a date bound, or the parse error that aborts the query. */
  function DateFilter(k: FilterKind, bound: Option<string>, dates: DateCodec): (r: Result<seq<Filter>, string>)
    ensures bound.None? ==> r == Ok([])
    ensures bound.Some? ==> (r.Ok? <==> dates.parse(bound.value).Ok?)
    ensures r.Ok? && bound.Some? ==> r.value == [Filter(k, SqlText(dates.format(dates.parse(bound.value).value)))]
  {
    match bound
    case None => Ok([])
    case Some(text) =>
      match dates.parse(text)
      case Err(e) => Err("Date parse error: " + e)
      case Ok(dt) => Ok([Filter(k, SqlText(dates.format(dt)))])
  }

  /** Whether a present date bound fails to parse. */
  predicate BadDate(bound: Option<string>, dates: DateCodec) {
    bound.Some? && dates.parse(bound.value).Err?
  }

  /**
   * The filter one field contributes: none when it is absent, otherwise one filter of that
   * kind, the name as a `%name%` pattern, a date normalised through the codec, a size as an
   * integer. A date that does not parse is an error.
   */
  function FilterFor(q: GalleryQuery, dates: DateCodec, k: FilterKind): (r: Result<seq<Filter>, string>)
    ensures r.Err? <==> (k == FromTime && BadDate(q.startUtc, dates)) || (k == UntilTime && BadDate(q.endUtc, dates))
    ensures r.Ok? ==> |r.value| <= 1 && (|r.value| == 1 <==> Asks(q, k))
    ensures r.Ok? ==> forall f :: f in r.value ==> f.kind == k
  {
    match k
    case ByName => Ok(if q.fileName.Some? then [Filter(ByName, SqlText("%" + q.fileName.value + "%"))] else [])
    case ByHost => Ok(if q.host.Some? then [Filter(ByHost, SqlText(q.host.value))] else [])
    case FromTime => DateFilter(FromTime, q.startUtc, dates)
    case UntilTime => DateFilter(UntilTime, q.endUtc, dates)
    case MinSize => Ok(if q.minFilesize.Some? then [Filter(MinSize, SqlInteger(q.minFilesize.value))] else [])
    case MaxSize => Ok(if q.maxFilesize.Some? then [Filter(MaxSize, SqlInteger(q.maxFilesize.value))] else [])
  }

  /** The order in which `query` considers the fields. */
  const AllKinds: seq<FilterKind> := [ByName, ByHost, FromTime, UntilTime, MinSize, MaxSize]

  predicate Increasing(ks: seq<FilterKind>) {
    forall i, j :: 0 <= i < j < |ks| ==> Rank(ks[i]) < Rank(ks[j])
  }

  /** The filters of the fields `ks`, in that order; the first failing field's error otherwise. */
  function FiltersOf(q: GalleryQuery, dates: DateCodec, ks: seq<FilterKind>): Result<seq<Filter>, string>
    decreases |ks|
  {
    if |ks| == 0 then Ok([])
    else
      var init :- FiltersOf(q, dates, ks[..|ks| - 1]);
      var last :- FilterFor(q, dates, ks[|ks| - 1]);
      Ok(init + last)
  }

  /** `FiltersOf` fails exactly when one of the fields fails. */
  lemma {:induction false} FiltersOfFails(q: GalleryQuery, dates: DateCodec, ks: seq<FilterKind>)
    ensures FiltersOf(q, dates, ks).Err? <==> exists i :: 0 <= i < |ks| && FilterFor(q, dates, ks[i]).Err?
    decreases |ks|
  {
    if |ks| > 0 {
      var ks' := ks[..|ks| - 1];
      FiltersOfFails(q, dates, ks');
      assert forall i :: 0 <= i < |ks'| ==> ks'[i] == ks[i];
      if FiltersOf(q, dates, ks).Err? && FiltersOf(q, dates, ks').Ok? {
        assert FilterFor(q, dates, ks[|ks| - 1]).Err?;
      }
    }
  }

  /** Every filter `FiltersOf` returns is the one filter its own field contributes. */
  lemma {:induction false} FiltersOfMembers(q: GalleryQuery, dates: DateCodec, ks: seq<FilterKind>)
    requires FiltersOf(q, dates, ks).Ok?
    ensures forall f :: f in FiltersOf(q, dates, ks).value ==> f.kind in ks && FilterFor(q, dates, f.kind) == Ok([f])
    decreases |ks|
  {
    if |ks| > 0 {
      var ks' := ks[..|ks| - 1];
      FiltersOfMembers(q, dates, ks');
      assert forall k :: k in ks' ==> k in ks;
      var last := FilterFor(q, dates, ks[|ks| - 1]).value;
      assert FiltersOf(q, dates, ks).value == FiltersOf(q, dates, ks').value + last;
    }
  }

  /** Every field asked for has its filter in the result of `FiltersOf`. */
  lemma {:induction false} FiltersOfPresent(q: GalleryQuery, dates: DateCodec, ks: seq<FilterKind>)
    requires FiltersOf(q, dates, ks).Ok?
    ensures forall i :: 0 <= i < |ks| && Asks(q, ks[i]) ==>
      FilterFor(q, dates, ks[i]).Ok? && FilterFor(q, dates, ks[i]).value[0] in FiltersOf(q, dates, ks).value
    decreases |ks|
  {
    if |ks| > 0 {
      var ks' := ks[..|ks| - 1];
      FiltersOfPresent(q, dates, ks');
      var last := FilterFor(q, dates, ks[|ks| - 1]).value;
      assert FiltersOf(q, dates, ks).value == FiltersOf(q, dates, ks').value + last;
      forall i | 0 <= i < |ks| && Asks(q, ks[i])
        ensures FilterFor(q, dates, ks[i]).Ok? && FilterFor(q, dates, ks[i]).value[0] in FiltersOf(q, dates, ks).value
      {
        if i < |ks'| {
          assert ks'[i] == ks[i];
        }
      }
    }
  }

  /** When the fields are in increasing rank, so are the filters `FiltersOf` returns. */
  lemma {:induction false} FiltersOfOrdered(q: GalleryQuery, dates: DateCodec, ks: seq<FilterKind>)
    requires FiltersOf(q, dates, ks).Ok? && Increasing(ks)
    ensures var fs := FiltersOf(q, dates, ks).value;
      forall i, j :: 0 <= i < j < |fs| ==> Rank(fs[i].kind) < Rank(fs[j].kind)
    decreases |ks|
  {
    if |ks| > 0 {
      var ks' := ks[..|ks| - 1];
      var init := FiltersOf(q, dates, ks').value;
      var last := FilterFor(q, dates, ks[|ks| - 1]).value;
      assert Increasing(ks') by {
        assert forall i :: 0 <= i < |ks'| ==> ks'[i] == ks[i];
      }
      FiltersOfOrdered(q, dates, ks');
      FiltersOfMembers(q, dates, ks');
      var fs := init + last;
      assert FiltersOf(q, dates, ks).value == fs;
      forall i, j | 0 <= i < j < |fs| ensures Rank(fs[i].kind) < Rank(fs[j].kind) {
        if j >= |init| {
          assert fs[j] in last && fs[i] in init;
          var p :| 0 <= p < |ks'| && ks'[p] == fs[i].kind;
          assert ks[p] == fs[i].kind;
        }
      }
    }
  }

  /**
   * The filters `query` applies, in clause order: one per present field, with the value each
   * field binds. An unparsable start or end date is an error.
   */
  function Filters(q: GalleryQuery, dates: DateCodec): (r: Result<seq<Filter>, string>)
    ensures r.Err? <==> BadDate(q.startUtc, dates) || BadDate(q.endUtc, dates)
    ensures r.Ok? ==> forall i, j :: 0 <= i < j < |r.value| ==> Rank(r.value[i].kind) < Rank(r.value[j].kind)
    ensures r.Ok? ==> forall f :: f in r.value ==> Asks(q, f.kind) && FilterFor(q, dates, f.kind) == Ok([f])
    ensures r.Ok? && q.fileName.Some? ==> Filter(ByName, SqlText("%" + q.fileName.value + "%")) in r.value
    ensures r.Ok? && q.host.Some? ==> Filter(ByHost, SqlText(q.host.value)) in r.value
    ensures r.Ok? && q.startUtc.Some? ==>
      Filter(FromTime, SqlText(dates.format(dates.parse(q.startUtc.value).value))) in r.value
    ensures r.Ok? && q.endUtc.Some? ==>
      Filter(UntilTime, SqlText(dates.format(dates.parse(q.endUtc.value).value))) in r.value
    ensures r.Ok? && q.minFilesize.Some? ==> Filter(MinSize, SqlInteger(q.minFilesize.value)) in r.value
    ensures r.Ok? && q.maxFilesize.Some? ==> Filter(MaxSize, SqlInteger(q.maxFilesize.value)) in r.value
  {
    assert AllKinds[0] == ByName && AllKinds[1] == ByHost && AllKinds[2] == FromTime;
    assert AllKinds[3] == UntilTime && AllKinds[4] == MinSize && AllKinds[5] == MaxSize;
    assert Increasing(AllKinds);
    FiltersOfFails(q, dates, AllKinds);
    var r := FiltersOf(q, dates, AllKinds);
    if r.Err? then r
    else
      FiltersOfMembers(q, dates, AllKinds);
      FiltersOfPresent(q, dates, AllKinds);
      FiltersOfOrdered(q, dates, AllKinds);
      r
  }

  /** A successful `FiltersOf` is the earlier fields' contributions followed by the last field's. */
  lemma FiltersOfSnoc(q: GalleryQuery, dates: DateCodec, ks: seq<FilterKind>)
    requires |ks| > 0 && FiltersOf(q, dates, ks).Ok?
    ensures FiltersOf(q, dates, ks[..|ks| - 1]).Ok? && FilterFor(q, dates, ks[|ks| - 1]).Ok?
    ensures FiltersOf(q, dates, ks).value == FiltersOf(q, dates, ks[..|ks| - 1]).value + FilterFor(q, dates, ks[|ks| - 1]).value
  {
  }

  /** A successful `Filters` is the six fields' contributions one after another. */
  lemma FiltersPieces(q: GalleryQuery, dates: DateCodec)
    requires Filters(q, dates).Ok?
    ensures Filters(q, dates).value ==
      FilterFor(q, dates, ByName).value + FilterFor(q, dates, ByHost).value
      + FilterFor(q, dates, FromTime).value + FilterFor(q, dates, UntilTime).value
      + FilterFor(q, dates, MinSize).value + FilterFor(q, dates, MaxSize).value
  {
    var k6 := AllKinds;
    var k5 := [ByName, ByHost, FromTime, UntilTime, MinSize];
    var k4 := [ByName, ByHost, FromTime, UntilTime];
    var k3 := [ByName, ByHost, FromTime];
    var k2 := [ByName, ByHost];
    var k1 := [ByName];
    var p0, p1, p2 := FilterFor(q, dates, ByName).value, FilterFor(q, dates, ByHost).value, FilterFor(q, dates, FromTime).value;
    var p3, p4, p5 := FilterFor(q, dates, UntilTime).value, FilterFor(q, dates, MinSize).value, FilterFor(q, dates, MaxSize).value;
    assert FiltersOf(q, dates, k5).Ok? && FiltersOf(q, dates, k6).value == FiltersOf(q, dates, k5).value + p5 by {
      assert k6[..5] == k5;
      FiltersOfSnoc(q, dates, k6);
    }
    assert FiltersOf(q, dates, k4).Ok? && FiltersOf(q, dates, k5).value == FiltersOf(q, dates, k4).value + p4 by {
      assert k5[..4] == k4;
      FiltersOfSnoc(q, dates, k5);
    }
    assert FiltersOf(q, dates, k3).Ok? && FiltersOf(q, dates, k4).value == FiltersOf(q, dates, k3).value + p3 by {
      assert k4[..3] == k3;
      FiltersOfSnoc(q, dates, k4);
    }
    assert FiltersOf(q, dates, k2).Ok? && FiltersOf(q, dates, k3).value == FiltersOf(q, dates, k2).value + p2 by {
      assert k3[..2] == k2;
      FiltersOfSnoc(q, dates, k3);
    }
    assert FiltersOf(q, dates, k1).Ok? && FiltersOf(q, dates, k2).value == FiltersOf(q, dates, k1).value + p1 by {
      assert k2[..1] == k1;
      FiltersOfSnoc(q, dates, k2);
    }
    assert FiltersOf(q, dates, k1).value == p0 by {
      assert k1[..0] == [];
      FiltersOfSnoc(q, dates, k1);
    }
  }

  /** The clauses of the filters, concatenated. */
  function WhereSql(fs: seq<Filter>): (s: string)
    ensures Count(s, '?') == |fs|
  {
    if |fs| == 0 then []
    else
      CountConcat(WhereSql(fs[..|fs| - 1]), ClauseSql(fs[|fs| - 1].kind), '?');
      WhereSql(fs[..|fs| - 1]) + ClauseSql(fs[|fs| - 1].kind)
  }

  /** The values bound to the placeholders, in order. */
  function Params(fs: seq<Filter>): (ps: seq<SqlValue>)
    ensures |ps| == |fs|
    ensures forall i :: 0 <= i < |fs| ==> ps[i] == fs[i].param
  {
    if |fs| == 0 then [] else Params(fs[..|fs| - 1]) + [fs[|fs| - 1].param]
  }

  /**
   * One `if let Some(..)` block of `GalleryStore::query`: when the field is present its clause
   * is pushed onto the SQL and its value onto the parameters; a start or end date that does
   * not parse returns Err.
   */
  method ApplyField(q: GalleryQuery, dates: DateCodec, k: FilterKind, sql: string, params: seq<SqlValue>)
    returns (r: Result<(string, seq<SqlValue>), string>)
    ensures r.Ok? <==> FilterFor(q, dates, k).Ok?
    ensures r.Ok? ==> r.value.0 == sql + WhereSql(FilterFor(q, dates, k).value)
    ensures r.Ok? ==> r.value.1 == params + Params(FilterFor(q, dates, k).value)
  {
    var fs :- FilterFor(q, dates, k);
    if |fs| == 0 {
      assert WhereSql(fs) == [] && Params(fs) == [];
      r := Ok((sql, params));
    } else {
      OneFilter(fs);
      r := Ok((sql + ClauseSql(fs[0].kind), params + [fs[0].param]));
    }
  }

  /** A single filter contributes its clause and its value. */
  lemma OneFilter(fs: seq<Filter>)
    requires |fs| == 1
    ensures WhereSql(fs) == ClauseSql(fs[0].kind) && Params(fs) == [fs[0].param]
  {
    assert fs[..0] == [];
  }

  /**
   * `GalleryStore::query` up to running the statement: starting from the `WHERE 1=1` base,
   * the six fields are applied in their fixed order, then the ordering is appended; an
   * unparsable date returns Err before any statement is prepared. The text has exactly one
   * placeholder per parameter.
   */
  method BuildQuery(q: GalleryQuery, dates: DateCodec) returns (r: Result<(string, seq<SqlValue>), string>)
    ensures r.Err? <==> Filters(q, dates).Err?
    ensures r.Ok? ==> r.value.0 == BaseSql + WhereSql(Filters(q, dates).value) + OrderSql
    ensures r.Ok? ==> r.value.1 == Params(Filters(q, dates).value)
    ensures r.Ok? ==> StartsWith(r.value.0, BaseSql) && EndsWith(r.value.0, OrderSql)
    ensures r.Ok? ==> Count(r.value.0, '?') == |r.value.1|
  {
    assert Filters(q, dates).Err? <==> BadDate(q.startUtc, dates) || BadDate(q.endUtc, dates);
    var s0: (string, seq<SqlValue>) := (BaseSql, []);
    ghost var fs: seq<Filter> := [];
    assert s0.0 == BaseSql + WhereSql(fs);

    var r1 := ApplyField(q, dates, ByName, s0.0, s0.1);
    var s1 := r1.value;
    Extend(BaseSql, fs, FilterFor(q, dates, ByName).value);
    fs := fs + FilterFor(q, dates, ByName).value;
    var r2 := ApplyField(q, dates, ByHost, s1.0, s1.1);
    var s2 := r2.value;
    Extend(BaseSql, fs, FilterFor(q, dates, ByHost).value);
    fs := fs + FilterFor(q, dates, ByHost).value;
    var s3 :- ApplyField(q, dates, FromTime, s2.0, s2.1);
    Extend(BaseSql, fs, FilterFor(q, dates, FromTime).value);
    fs := fs + FilterFor(q, dates, FromTime).value;
    var s4 :- ApplyField(q, dates, UntilTime, s3.0, s3.1);
    Extend(BaseSql, fs, FilterFor(q, dates, UntilTime).value);
    fs := fs + FilterFor(q, dates, UntilTime).value;
    var r5 := ApplyField(q, dates, MinSize, s4.0, s4.1);
    var s5 := r5.value;
    Extend(BaseSql, fs, FilterFor(q, dates, MinSize).value);
    fs := fs + FilterFor(q, dates, MinSize).value;
    var r6 := ApplyField(q, dates, MaxSize, s5.0, s5.1);
    var s6 := r6.value;
    Extend(BaseSql, fs, FilterFor(q, dates, MaxSize).value);
    fs := fs + FilterFor(q, dates, MaxSize).value;

    FiltersPieces(q, dates);
    QueryShape(fs);
    r := Ok((s6.0 + OrderSql, s6.1));
  }

  /** Appending a field's filters to a query built from `fs` builds it from `fs + p`. */
  lemma Extend(base: string, fs: seq<Filter>, p: seq<Filter>)
    ensures base + WhereSql(fs) + WhereSql(p) == base + WhereSql(fs + p)
    ensures Params(fs) + Params(p) == Params(fs + p)
  {
    WhereSqlConcat(fs, p);
    Assoc(base, WhereSql(fs), WhereSql(p));
    ParamsConcat(fs, p);
  }

  /** Concatenation regrouped. */
  lemma Assoc(a: string, b: string, c: string)
    ensures a + b + c == a + (b + c)
  {
  }

  /** The parameters of two filter lists one after the other. */
  lemma ParamsConcat(a: seq<Filter>, b: seq<Filter>)
    ensures Params(a + b) == Params(a) + Params(b)
  {
    var l, r := Params(a + b), Params(a) + Params(b);
    assert |l| == |r|;
    forall i | 0 <= i < |l| ensures l[i] == r[i] {
      if i < |a| {
        assert (a + b)[i] == a[i];
      } else {
        assert (a + b)[i] == b[i - |a|];
      }
    }
  }

  /** The clauses of two filter lists one after the other. */
  lemma {:induction false} WhereSqlConcat(a: seq<Filter>, b: seq<Filter>)
    ensures WhereSql(a + b) == WhereSql(a) + WhereSql(b)
    decreases |b|
  {
    if |b| == 0 {
      assert a + b == a;
    } else {
      var b', c := b[..|b| - 1], ClauseSql(b[|b| - 1].kind);
      assert (a + b)[..|a + b| - 1] == a + b';
      assert (a + b)[|a + b| - 1] == b[|b| - 1];
      assert WhereSql(a + b) == WhereSql(a + b') + c;
      WhereSqlConcat(a, b');
      Assoc(WhereSql(a), WhereSql(b'), c);
      assert WhereSql(b) == WhereSql(b') + c;
    }
  }

  /** One more filter adds its clause to the text and its value to the parameters. */
  lemma AppendFilter(fs: seq<Filter>, f: Filter)
    ensures WhereSql(fs + [f]) == WhereSql(fs) + ClauseSql(f.kind)
    ensures Params(fs + [f]) == Params(fs) + [f.param]
  {
    assert (fs + [f])[..|fs|] == fs;
  }

  /** Neither the base query nor the ordering holds a placeholder. */
  lemma FixedPartsHaveNoPlaceholder()
    ensures '?' !in BaseSql && '?' !in OrderSql
  {
    NoPlaceholder("SELECT id, file_name, url, host, ");
    NoPlaceholder("delete_marker, inserted_at, filesize ");
    NoPlaceholder("FROM gallery_items WHERE 1=1");
    NoPlaceholder(OrderSql);
  }

  lemma NoPlaceholder(s: string)
    requires forall i :: 0 <= i < |s| ==> s[i] != '?'
    ensures '?' !in s
  {
  }

  /** Text placed between two placeholder-free parts keeps its placeholder count. */
  lemma Between(a: string, w: string, b: string)
    requires '?' !in a && '?' !in b
    ensures StartsWith(a + w + b, a) && EndsWith(a + w + b, b)
    ensures Count(a + w + b, '?') == Count(w, '?')
  {
    CountAbsent(a, '?');
    CountAbsent(b, '?');
    CountConcat(a, w, '?');
    CountConcat(a + w, b, '?');
    assert (a + w + b)[..|a|] == a;
    assert (a + w + b)[|a + w + b| - |b|..] == b;
  }

  /** The finished text starts with the base, ends with the ordering, and has one placeholder per filter. */
  lemma QueryShape(fs: seq<Filter>)
    ensures var sql := BaseSql + WhereSql(fs) + OrderSql;
      StartsWith(sql, BaseSql) && EndsWith(sql, OrderSql) && Count(sql, '?') == |fs|
  {
    FixedPartsHaveNoPlaceholder();
    Between(BaseSql, WhereSql(fs), OrderSql);
  }

  /* ---------------- insert ---------------- */

  /** `NewGalleryItem`: what the front end asks to record. */
  datatype NewGalleryItem = NewGalleryItem(
    fileName: string,
    url: string,
    host: string,
    deleteMarker: Option<string>,
    insertedAt: Option<string>,
    filesize: Option<int>)

  /** `GalleryItem`: a stored row. */
  datatype GalleryItem = GalleryItem(
    id: int,
    fileName: string,
    url: string,
    host: string,
    deleteMarker: Option<string>,
    insertedAt: string,
    filesize: Option<int>)

  /**
   * The timestamp `insert` stores: a provided one must parse as RFC 3339 and is then kept
   * exactly as given; without one, the current instant is formatted.
   */
  function InsertedAt(provided: Option<string>, dates: DateCodec, now: int): (r: Result<string, string>)
    ensures provided.Some? ==> (r.Ok? <==> dates.parse(provided.value).Ok?)
    ensures provided.Some? && r.Ok? ==> r.value == provided.value
    ensures provided.None? ==> r == Ok(dates.format(now))
  {
    match provided
    case Some(ts) =>
      (match dates.parse(ts)
       case Err(e) => Err("Date parse error: " + e)
       case Ok(_) => Ok(ts))
    case None => Ok(dates.format(now))
  }

  /**
   * `GalleryStore::insert`: the row is written with the chosen timestamp (`execute` runs the
   * INSERT and yields the new row id), and the returned item is the request with that id and
   * timestamp. An unparsable timestamp fails before anything is written.
   */
  function Insert(item: NewGalleryItem, dates: DateCodec, now: int,
                  execute: GalleryItem -> Result<int, string>): (r: Result<GalleryItem, string>)
    ensures item.insertedAt.Some? && dates.parse(item.insertedAt.value).Err? ==> r.Err?
    ensures r.Ok? <==>
      InsertedAt(item.insertedAt, dates, now).Ok?
      && execute(GalleryItem(0, item.fileName, item.url, item.host, item.deleteMarker,
                             InsertedAt(item.insertedAt, dates, now).value, item.filesize)).Ok?
    ensures r.Ok? ==> InsertedAt(item.insertedAt, dates, now) == Ok(r.value.insertedAt)
    ensures r.Ok? ==> r.value.fileName == item.fileName && r.value.url == item.url && r.value.host == item.host
    ensures r.Ok? ==> r.value.deleteMarker == item.deleteMarker && r.value.filesize == item.filesize
    ensures r.Ok? ==> execute(r.value.(id := 0)) == Ok(r.value.id)
  {
    var insertedAt :- InsertedAt(item.insertedAt, dates, now);
    var row := GalleryItem(0, item.fileName, item.url, item.host, item.deleteMarker, insertedAt, item.filesize);
    var id :- match execute(row)
      case Err(e) => Err("Database error: " + e)
      case Ok(id) => Ok(id);
    Ok(row.(id := id))
  }

  /* ---------------- hosts ---------------- */

  /** `list_hosts`: the hosts of the result rows, in row order; the first failing row fails the call. */
  method ListHosts(rows: seq<Result<string, string>>) returns (r: Result<seq<string>, string>)
    ensures r.Ok? <==> forall i :: 0 <= i < |rows| ==> rows[i].Ok?
    ensures r.Ok? ==> |r.value| == |rows| && forall i :: 0 <= i < |rows| ==> r.value[i] == rows[i].value
  {
    var hosts: seq<string> := [];
    for i := 0 to |rows|
      invariant |hosts| == i
      invariant forall j :: 0 <= j < i ==> rows[j].Ok? && hosts[j] == rows[j].value
    {
      match rows[i] {
        case Err(e) =>
          return Err("Database error: " + e);
        case Ok(h) =>
          hosts := hosts + [h];
      }
    }
    r := Ok(hosts);
  }

  /** `Vec::dedup`: each run of equal neighbours kept once. */
  function Dedup(s: seq<string>): (r: seq<string>)
    ensures |r| <= |s|
    ensures |s| > 0 ==> |r| > 0 && r[|r| - 1] == s[|s| - 1]
  {
    if |s| == 0 then []
    else
      var d := Dedup(s[..|s| - 1]);
      if |d| > 0 && d[|d| - 1] == s[|s| - 1] then d else d + [s[|s| - 1]]
  }

  /** Deduplication keeps exactly the elements there were. */
  lemma {:induction false} DedupElements(s: seq<string>)
    ensures forall x :: x in Dedup(s) <==> x in s
  {
    if |s| > 0 {
      var p := s[..|s| - 1];
      DedupElements(p);
      assert s == p + [s[|s| - 1]];
    }
  }

  predicate StrictlyIncreasing(s: seq<string>) {
    forall i :: 0 < i < |s| ==> StrLe(s[i - 1], s[i]) && s[i - 1] != s[i]
  }

  /** Deduplicating a sorted list leaves it strictly increasing. */
  lemma {:induction false} DedupOfSorted(s: seq<string>)
    requires Sorting.SortedBy(s, StrLe)
    ensures StrictlyIncreasing(Dedup(s))
  {
    if |s| > 0 {
      var p := s[..|s| - 1];
      assert Sorting.SortedBy(p, StrLe) by {
        forall i | 0 < i < |p| ensures StrLe(p[i - 1], p[i]) {
          assert p[i - 1] == s[i - 1] && p[i] == s[i];
        }
      }
      DedupOfSorted(p);
      var d, x := Dedup(p), s[|s| - 1];
      if |d| > 0 && d[|d| - 1] != x {
        assert d[|d| - 1] == s[|s| - 2];
        assert StrLe(d[|d| - 1], x);
        AppendIncreasing(d, x);
      }
    }
  }

  /** One more element either repeats the last kept one or is kept. */
  lemma DedupStep(s: seq<string>, i: nat)
    requires 0 < i < |s|
    ensures var d := Dedup(s[..i]);
      Dedup(s[..i + 1]) == if d[|d| - 1] == s[i] then d else d + [s[i]]
  {
    assert s[..i + 1][..i] == s[..i];
  }

  lemma AppendIncreasing(d: seq<string>, x: string)
    requires StrictlyIncreasing(d)
    requires |d| > 0 ==> StrLe(d[|d| - 1], x) && d[|d| - 1] != x
    ensures StrictlyIncreasing(d + [x])
  {
    var e := d + [x];
    forall i | 0 < i < |e| ensures StrLe(e[i - 1], e[i]) && e[i - 1] != e[i] {
      if i < |d| {
        assert e[i - 1] == d[i - 1] && e[i] == d[i];
      }
    }
  }

  /** `Vec::dedup` in place: the kept elements move to the front, and their number is returned. */
  method DedupInPlace(a: array<string>) returns (len: nat)
    modifies a
    ensures len <= a.Length && a[..len] == Dedup(old(a[..]))
  {
    ghost var s := a[..];
    if a.Length == 0 {
      return 0;
    }
    assert Dedup(s[..1]) == [s[0]] by {
      assert s[..1][..0] == [];
    }
    var w := 1;
    var i := 1;
    while i < a.Length
      invariant 1 <= w <= i <= a.Length
      invariant a[..w] == Dedup(s[..i])
      invariant forall k :: i <= k < a.Length ==> a[k] == s[k]
    {
      DedupStep(s, i);
      if a[i] != a[w - 1] {
        ghost var kept := a[..w];
        a[w] := a[i];
        assert a[..w + 1] == kept + [s[i]];
        w := w + 1;
      }
      i := i + 1;
    }
    assert s[..i] == s;
    len := w;
  }

  lemma StrLeTotalPreorder()
    ensures Sorting.TotalPreorder(StrLe)
  {
    forall a: string, b: string ensures StrLe(a, b) || StrLe(b, a) {
      StrLeTotal(a, b);
    }
    forall a: string, b: string, c: string | StrLe(a, b) && StrLe(b, c) ensures StrLe(a, c) {
      StrLeTransitive(a, b, c);
    }
  }

  /**
   * `gallery_list_hosts`: the hosts `list_hosts` returns, sorted and deduplicated in place.
   * The result is strictly increasing and holds exactly the hosts of the rows.
   */
  method GalleryListHosts(rows: seq<Result<string, string>>) returns (r: Result<seq<string>, string>)
    ensures r.Ok? <==> forall i :: 0 <= i < |rows| ==> rows[i].Ok?
    ensures r.Ok? ==> StrictlyIncreasing(r.value)
    ensures r.Ok? ==> forall h :: h in r.value <==> Ok(h) in rows
  {
    var hosts :- ListHosts(rows);
    var unique := SortDedup(hosts);
    forall h ensures h in hosts <==> Ok(h) in rows {
      if h in hosts {
        var i :| 0 <= i < |hosts| && hosts[i] == h;
        assert rows[i] == Ok(h);
      }
      if Ok(h) in rows {
        var i :| 0 <= i < |rows| && rows[i] == Ok(h);
        assert hosts[i] == h;
      }
    }
    r := Ok(unique);
  }

  /** `sort` then `dedup` on the host list: strictly increasing, with the same hosts. */
  method SortDedup(hosts: seq<string>) returns (unique: seq<string>)
    ensures StrictlyIncreasing(unique)
    ensures forall h :: h in unique <==> h in hosts
  {
    var a := new string[|hosts|](i requires 0 <= i < |hosts| => hosts[i]);
    assert a[..] == hosts;
    Sorting.SortInPlace(a, StrLe);
    var sorted := a[..];
    var n := DedupInPlace(a);
    StrLeTotalPreorder();
    Sorting.SortBySorted(hosts, StrLe);
    Sorting.SortByElements(hosts, StrLe);
    DedupOfSorted(sorted);
    DedupElements(sorted);
    unique := a[..n];
  }
}
