/**
 * The two lookups of the Maya calendar system: a row of the KIN matrix
 * table by KIN number, and the Maya birthday label of a calendar month
 * and day. Loaded tables come in as named frames in the order the loader
 * produced them; each lookup picks the first table whose name qualifies.
 */
module Utils {
  import opened Wrappers
  import opened Strings
  import opened Frames

  /** Column holding the KIN number in the matrix table. */
  const Kin := "KIN"
  /** Column holding the month/day key in the birthday table. */
  const SolarMonthDay := "國曆月日"
  /** Column holding the Maya birthday label in the birthday table. */
  const MayaBirthday := "瑪雅生日"
  /** Returned when no loaded table is a birthday table. */
  const NoBirthdayTable := "找不到瑪雅生日對照表"
  /** Returned when no row carries the requested month/day. */
  const NoBirthdayMatch := "無對應瑪雅生日"

  /** Why a KIN lookup raised: `FileNotFoundError` or `ValueError`. */
  datatype LookupError = TableNotFound | KinNotFound(kin: int)

  /** A calendar date; only month and day take part in the birthday lookup. */
  datatype Date = Date(year: int, month: int, day: int)

  predicate ValidDate(d: Date)
  {
    1 <= d.month <= 12 && 1 <= d.day <= 31
  }

  /** A table name that marks the KIN matrix table. */
  predicate IsMatrixName(name: string)
  {
    Contains(name, "矩陣") || Contains(Lower(name), "matrix")
  }

  /** A table name that marks the Maya birthday table. */
  predicate IsBirthdayName(name: string)
  {
    Contains(name, "瑪雅生日") || Contains(Lower(name), "maya")
  }

  /** The table that `wanted` selects from `cat`, if there is one, is well formed and has the columns `cols`. */
  predicate SelectedHas(cat: seq<(string, Table)>, wanted: string -> bool, cols: set<string>)
  {
    match FirstIndex(Names(cat), wanted)
    case None => true
    case Some(i) => WellFormed(cat[i].1) && cols <= cat[i].1.columns
  }

  // ---------------------------------------------------------------------
  // KIN lookup
  // ---------------------------------------------------------------------

  /** A row of the coerced table whose KIN equals `kin`. */
  function KinEquals(kin: int): Row -> bool
  {
    (r: Row) => Kin in r && r[Kin] == Num(kin)
  }

  /** A row of the loaded table whose KIN text coerces to `kin`. */
  function KinCoercesTo(kin: int): Row -> bool
  {
    (r: Row) => Kin in r && ToNumeric(r[Kin]) == Num(kin)
  }

  /** The matrix table with its KIN column coerced to numbers. */
  function CoerceKin(t: Table): (c: Table)
    requires WellFormed(t) && Kin in t.columns
    ensures WellFormed(c) && c.columns == t.columns && |c.rows| == |t.rows|
    ensures forall j :: 0 <= j < |t.rows| ==> c.rows[j] == t.rows[j][Kin := ToNumeric(t.rows[j][Kin])]
  {
    WithColumn(t, Kin, MapColumn(t, Kin, ToNumeric))
  }

  /** What the lookup returns or raises once the matrix table `t` is selected. */
  function KinIn(t: Table, kin: int): Result<Row, LookupError>
    requires WellFormed(t) && Kin in t.columns
  {
    var hits := Filter(CoerceKin(t).rows, KinEquals(kin));
    if |hits| == 0 then Failure(KinNotFound(kin)) else Success(hits[0])
  }

  /** What `kin_lookup` returns or raises, on the tables the catalog holds. */
  function KinSpec(kin: int, cat: seq<(string, Table)>): Result<Row, LookupError>
    requires SelectedHas(cat, IsMatrixName, {Kin})
  {
    match FirstIndex(Names(cat), IsMatrixName)
    case None => Failure(TableNotFound)
    case Some(i) => KinIn(cat[i].1, kin)
  }

  /**
   * `kin_lookup(kin_number, data)`: picks the first matrix table and looks
   * the KIN up in it with `KinInFrame`, or raises `TableNotFound`. The
   * caller's frames are left as they were.
   */
  method KinLookup(kinNumber: int, data: seq<(string, Frame)>) returns (r: Result<Row, LookupError>)
    requires SelectedHas(Snapshot(data), IsMatrixName, {Kin})
    ensures unchanged(FramesOf(data))
    ensures r == KinSpec(kinNumber, Snapshot(data))
  {
    ghost var cat := Snapshot(data);
    assert Names(cat) == Names(data);
    var df := SelectFrame(data, IsMatrixName);
    if df.None? {
      return Failure(TableNotFound);
    }
    ghost var i := FirstIndex(Names(cat), IsMatrixName).value;
    assert df.value.Value() == cat[i].1;
    r := KinInFrame(df.value, kinNumber);
    assert Snapshot(data) == cat;
  }

  /**
   * The body of `kin_lookup` once the table is chosen: coerces the KIN
   * column of a copy of it to numbers and returns the first row whose KIN
   * equals the request, or raises `KinNotFound`. The frame it is given is
   * not changed.
   */
  method KinInFrame(df: Frame, kinNumber: int) returns (r: Result<Row, LookupError>)
    requires df.Valid() && Kin in df.columns
    ensures r == KinIn(df.Value(), kinNumber)
  {
    var frame := df.Copy();
    frame.SetColumn(Kin, MapColumn(frame.Value(), Kin, ToNumeric));
    assert frame.Value() == CoerceKin(df.Value());
    var hits := Filter(frame.rows, KinEquals(kinNumber));
    r := if |hits| == 0 then Failure(KinNotFound(kinNumber)) else Success(hits[0]);
  }

  /**
   * With a matrix table selected, the lookup fails with `KinNotFound` when
   * no row's KIN coerces to the request, and otherwise returns the first
   * row that does, with its KIN replaced by the number.
   */
  lemma KinSpecFirstMatch(kin: int, cat: seq<(string, Table)>, i: nat)
    requires SelectedHas(cat, IsMatrixName, {Kin})
    requires FirstIndex(Names(cat), IsMatrixName) == Some(i)
    ensures KinSpec(kin, cat) ==
      match FirstIndex(cat[i].1.rows, KinCoercesTo(kin))
      case None => Failure(KinNotFound(kin))
      case Some(k) => Success(cat[i].1.rows[k][Kin := Num(kin)])
  {
    var t := cat[i].1;
    var c := CoerceKin(t);
    forall j | 0 <= j < |t.rows|
      ensures KinEquals(kin)(c.rows[j]) == KinCoercesTo(kin)(t.rows[j])
    {
    }
    FirstIndexAlike(c.rows, KinEquals(kin), t.rows, KinCoercesTo(kin));
    FilterHead(c.rows, KinEquals(kin));
  }

  /** Without a matrix table the lookup raises `TableNotFound`, and only then. */
  lemma KinSpecNoTable(kin: int, cat: seq<(string, Table)>)
    requires SelectedHas(cat, IsMatrixName, {Kin})
    ensures KinSpec(kin, cat) == Failure(TableNotFound) <==> forall i :: 0 <= i < |cat| ==> !IsMatrixName(cat[i].0)
  {
  }

  /**
   * `row` is row `k` of `t` as the KIN lookup returns it: that row's KIN
   * coerces to `kin` and no earlier row's does, and `row` has the same
   * columns, KIN set to the number and every other cell unchanged.
   */
  ghost predicate KinRowOf(t: Table, k: int, kin: int, row: Row)
    requires WellFormed(t) && Kin in t.columns
  {
    0 <= k < |t.rows| &&
    ToNumeric(t.rows[k][Kin]) == Num(kin) &&
    (forall j :: 0 <= j < k ==> ToNumeric(t.rows[j][Kin]) != Num(kin)) &&
    row.Keys == t.rows[k].Keys && row[Kin] == Num(kin) &&
    forall col :: col in row && col != Kin ==> row[col] == t.rows[k][col]
  }

  /**
   * A returned row is a row of the selected table: same columns, every
   * column but KIN unchanged, KIN the requested number, and no earlier row
   * has a KIN that coerces to it.
   */
  lemma KinRowKeepsColumns(kin: int, cat: seq<(string, Table)>, i: nat)
    requires SelectedHas(cat, IsMatrixName, {Kin})
    requires FirstIndex(Names(cat), IsMatrixName) == Some(i)
    requires KinSpec(kin, cat).Success?
    ensures exists k :: KinRowOf(cat[i].1, k, kin, KinSpec(kin, cat).value)
  {
    KinSpecFirstMatch(kin, cat, i);
    var k := FirstIndex(cat[i].1.rows, KinCoercesTo(kin)).value;
    var src := cat[i].1.rows[k];
    assert forall j :: 0 <= j < k ==> !KinCoercesTo(kin)(cat[i].1.rows[j]);
    assert KinCoercesTo(kin)(src);
    assert KinRowOf(cat[i].1, k, kin, KinSpec(kin, cat).value);
  }

  /** A matrix table whose KIN cells all fail to parse as integers matches no KIN at all. */
  lemma NonNumericKinsNeverMatch(kin: int, cat: seq<(string, Table)>, i: nat)
    requires SelectedHas(cat, IsMatrixName, {Kin})
    requires FirstIndex(Names(cat), IsMatrixName) == Some(i)
    requires forall k :: 0 <= k < |cat[i].1.rows| ==>
      cat[i].1.rows[k][Kin].NaN? || (cat[i].1.rows[k][Kin].Str? && ParseInt(cat[i].1.rows[k][Kin].s).None?)
    ensures KinSpec(kin, cat) == Failure(KinNotFound(kin))
  {
    KinSpecFirstMatch(kin, cat, i);
    assert forall k :: 0 <= k < |cat[i].1.rows| ==> !KinCoercesTo(kin)(cat[i].1.rows[k]);
  }

  /** A catalog holding one matrix table with one row, KIN "260" and Name "X". */
  function OneRowCatalog(): seq<(string, Table)>
  {
    [("矩陣表", Table({Kin, "Name"}, [map[Kin := Str("260"), "Name" := Str("X")]]))]
  }

  /** The one-row catalog's table is selected and its KIN cell coerces to 260. */
  lemma OneRowCatalogFacts()
    ensures FirstIndex(Names(OneRowCatalog()), IsMatrixName) == Some(0)
    ensures SelectedHas(OneRowCatalog(), IsMatrixName, {Kin})
    ensures ToNumeric(Str("260")) == Num(260)
  {
    assert Contains("矩陣表", "矩陣");
    assert IsMatrixName(OneRowCatalog()[0].0);
    assert ShowInt(260) == ShowNat(26) + "0" == ShowNat(2) + "6" + "0" == "260";
    ParseShowInt(260);
  }

  /** KIN 260 finds the row, with only its KIN cell turned into a number. */
  lemma KinFoundExample()
    ensures SelectedHas(OneRowCatalog(), IsMatrixName, {Kin})
    ensures KinSpec(260, OneRowCatalog()) == Success(map[Kin := Num(260), "Name" := Str("X")])
  {
    OneRowCatalogFacts();
    KinSpecFirstMatch(260, OneRowCatalog(), 0);
    assert FirstIndex(OneRowCatalog()[0].1.rows, KinCoercesTo(260)) == Some(0);
    assert map[Kin := Str("260"), "Name" := Str("X")][Kin := Num(260)] == map[Kin := Num(260), "Name" := Str("X")];
  }

  /** KIN 259 is not in the one-row table. */
  lemma KinMissingExample()
    ensures SelectedHas(OneRowCatalog(), IsMatrixName, {Kin})
    ensures KinSpec(259, OneRowCatalog()) == Failure(KinNotFound(259))
  {
    OneRowCatalogFacts();
    KinSpecFirstMatch(259, OneRowCatalog(), 0);
    assert !KinCoercesTo(259)(OneRowCatalog()[0].1.rows[0]);
  }

  // ---------------------------------------------------------------------
  // Month/day key
  // ---------------------------------------------------------------------

  /** `%m` or `%d`: two digits, zero-padded. */
  function Pad2(n: nat): string
    requires n < 100
  {
    [DigitChar(n / 10), DigitChar(n % 10)]
  }

  /** `date.strftime('%m/%d')`. */
  function Strftime(month: int, day: int): string
    requires 1 <= month <= 12 && 1 <= day <= 31
  {
    Pad2(month) + "/" + Pad2(day)
  }

  /** `date.strftime('%m/%d').lstrip('0').replace('/0', '/')`. */
  function DateKey(month: int, day: int): string
    requires 1 <= month <= 12 && 1 <= day <= 31
  {
    Replace(LStrip(Strftime(month, day), '0'), "/0", "/")
  }

  /** Zero-padding a one- or two-digit number adds a '0' exactly when it has one digit. */
  lemma Pad2Show(n: nat)
    requires 1 <= n < 100
    ensures n < 10 ==> Pad2(n) == "0" + ShowNat(n)
    ensures n >= 10 ==> Pad2(n) == ShowNat(n)
  {
    if n >= 10 {
      assert ShowNat(n / 10) == [DigitChar(n / 10)];
    }
  }

  /** Replacing leaves a prefix alone that cannot start an occurrence of the pattern. */
  lemma {:induction false} ReplaceSkips(a: string, t: string, pat: string, rep: string)
    requires |pat| > 0 && pat[0] !in a
    ensures Replace(a + t, pat, rep) == a + Replace(t, pat, rep)
    decreases |a|
  {
    if |a| > 0 {
      var s := a + t;
      assert s[1..] == a[1..] + t;
      ReplaceSkips(a[1..], t, pat, rep);
      if |s| < |pat| {
        assert Replace(t, pat, rep) == t;
      } else {
        assert s[..|pat|][0] == a[0] != pat[0];
        assert Replace(s, pat, rep) == [a[0]] + Replace(s[1..], pat, rep);
        assert [a[0]] + (a[1..] + Replace(t, pat, rep)) == a + Replace(t, pat, rep);
      }
    } else {
      assert a + t == t;
    }
  }

  /** Dropping the '0' after the slash turns a zero-padded day into its plain decimal form. */
  lemma ReplaceDay(day: int)
    requires 1 <= day <= 31
    ensures Replace("/" + Pad2(day), "/0", "/") == "/" + ShowNat(day)
  {
    Pad2Show(day);
    var s := "/" + Pad2(day);
    if day < 10 {
      assert s[..2] == "/0" && s[2..] == ShowNat(day);
      assert Replace(ShowNat(day), "/0", "/") == ShowNat(day);
    } else {
      assert s[..2][1] == DigitChar(day / 10) != '0';
      assert s[1..] == ShowNat(day);
      ReplaceSkips(ShowNat(day), "", "/0", "/");
      assert ShowNat(day) + "" == ShowNat(day);
    }
  }

  /** Stripping leading '0's from a zero-padded month leaves its plain decimal form. */
  lemma StripMonth(month: int, rest: string)
    requires 1 <= month <= 12
    ensures LStrip(Pad2(month) + rest, '0') == ShowNat(month) + rest
  {
    Pad2Show(month);
    var m := ShowNat(month);
    assert m[0] != '0';
    if month < 10 {
      assert Pad2(month) + rest == "0" + (m + rest);
      assert (m + rest)[0] == m[0];
    } else {
      assert (Pad2(month) + rest)[0] == m[0];
    }
  }

  /** The key is month and day in plain decimal, without leading zeros, joined by '/'. */
  lemma DateKeyShape(month: int, day: int)
    requires 1 <= month <= 12 && 1 <= day <= 31
    ensures DateKey(month, day) == ShowNat(month) + "/" + ShowNat(day)
  {
    var rest := "/" + Pad2(day);
    assert Strftime(month, day) == Pad2(month) + rest;
    StripMonth(month, rest);
    ReplaceSkips(ShowNat(month), rest, "/0", "/");
    ReplaceDay(day);
    assert ShowNat(month) + ("/" + ShowNat(day)) == ShowNat(month) + "/" + ShowNat(day);
  }

  /**
   * Splitting the key on '/' and parsing both parts gives back the month
   * and the day, and neither part has a leading zero.
   */
  lemma DateKeyRoundTrip(month: int, day: int)
    requires 1 <= month <= 12 && 1 <= day <= 31
    ensures var parts := Split(DateKey(month, day), '/');
      |parts| == 2 && |parts[0]| > 0 && |parts[1]| > 0 &&
      parts[0][0] != '0' && parts[1][0] != '0' &&
      ParseNat(parts[0]) == Some(month) && ParseNat(parts[1]) == Some(day)
  {
    DateKeyShape(month, day);
    var m, d := ShowNat(month), ShowNat(day);
    assert '/' !in m && '/' !in d;
    assert m + "/" + d == m + ['/'] + d;
    SplitAt(m, d, '/');
    SplitPlain(d, '/');
    ParseShowNat(month);
    ParseShowNat(day);
  }

  /** Different dates of the year have different keys. */
  lemma DateKeyInjective(m1: int, d1: int, m2: int, d2: int)
    requires 1 <= m1 <= 12 && 1 <= d1 <= 31
    requires 1 <= m2 <= 12 && 1 <= d2 <= 31
    requires DateKey(m1, d1) == DateKey(m2, d2)
    ensures m1 == m2 && d1 == d2
  {
    DateKeyRoundTrip(m1, d1);
    DateKeyRoundTrip(m2, d2);
  }

  /** March 5th: both parts lose their leading zero. */
  lemma DateKeyMarchFifth()
    ensures DateKey(3, 5) == "3/5"
  {
    DateKeyShape(3, 5);
    assert ShowNat(3) == "3" && ShowNat(5) == "5";
  }

  /** October 5th: only the day loses its leading zero. */
  lemma DateKeyOctoberFifth()
    ensures DateKey(10, 5) == "10/5"
  {
    DateKeyShape(10, 5);
    assert ShowNat(10) == ShowNat(1) + "0" == "10";
    assert ShowNat(5) == "5";
  }

  /** December 10th: a zero that is not leading stays. */
  lemma DateKeyDecemberTenth()
    ensures DateKey(12, 10) == "12/10"
  {
    DateKeyShape(12, 10);
    assert ShowNat(12) == ShowNat(1) + "2" == "12";
    assert ShowNat(10) == ShowNat(1) + "0" == "10";
  }

  // ---------------------------------------------------------------------
  // Maya birthday lookup
  // ---------------------------------------------------------------------

  /** A row of the text-converted table whose month/day equals `key`. */
  function DateEquals(key: string): Row -> bool
  {
    (r: Row) => SolarMonthDay in r && r[SolarMonthDay] == Str(key)
  }

  /** A row of the loaded table whose month/day reads as `key` once converted to text. */
  function DateReadsAs(key: string): Row -> bool
  {
    (r: Row) => SolarMonthDay in r && AsStr(r[SolarMonthDay]) == Str(key)
  }

  /** The birthday table with its month/day column converted to text. */
  function DatesAsText(t: Table): (c: Table)
    requires WellFormed(t) && SolarMonthDay in t.columns
    ensures WellFormed(c) && c.columns == t.columns && |c.rows| == |t.rows|
    ensures forall j :: 0 <= j < |t.rows| ==>
      c.rows[j] == t.rows[j][SolarMonthDay := AsStr(t.rows[j][SolarMonthDay])]
  {
    WithColumn(t, SolarMonthDay, MapColumn(t, SolarMonthDay, AsStr))
  }

  /**
   * The label column is needed only when some row matches the key: the
   * source reads it only when the selection is not empty.
   */
  predicate LabelledWhereMatched(t: Table, key: string)
  {
    FirstIndex(t.rows, DateReadsAs(key)).Some? ==> MayaBirthday in t.columns
  }

  /** The selected birthday table, if any, is well formed, has the month/day column, and has the label column where it is read. */
  predicate BirthdayReadable(date: Date, cat: seq<(string, Table)>)
    requires ValidDate(date)
  {
    SelectedHas(cat, IsBirthdayName, {SolarMonthDay}) &&
    match FirstIndex(Names(cat), IsBirthdayName)
    case None => true
    case Some(i) => LabelledWhereMatched(cat[i].1, DateKey(date.month, date.day))
  }

  /** A row selected by the key has a label cell whenever the label column is needed. */
  lemma MatchedRowHasLabel(t: Table, key: string)
    requires WellFormed(t) && SolarMonthDay in t.columns && LabelledWhereMatched(t, key)
    ensures var hits := Filter(DatesAsText(t).rows, DateEquals(key));
      |hits| > 0 ==> MayaBirthday in hits[0]
  {
    var c := DatesAsText(t);
    var hits := Filter(c.rows, DateEquals(key));
    if |hits| > 0 {
      forall j | 0 <= j < |t.rows|
        ensures DateEquals(key)(c.rows[j]) == DateReadsAs(key)(t.rows[j])
      {
      }
      FirstIndexAlike(c.rows, DateEquals(key), t.rows, DateReadsAs(key));
      FilterHead(c.rows, DateEquals(key));
      assert hits[0] in c.rows;
    }
  }

  /** What the lookup returns once the birthday table `t` is selected and the key is built. */
  function BirthdayIn(t: Table, key: string): Cell
    requires WellFormed(t) && SolarMonthDay in t.columns && LabelledWhereMatched(t, key)
  {
    var hits := Filter(DatesAsText(t).rows, DateEquals(key));
    MatchedRowHasLabel(t, key);
    if |hits| == 0 then Str(NoBirthdayMatch) else hits[0][MayaBirthday]
  }

  /** What `date_to_maya_birthday` returns, on the tables the catalog holds. */
  function BirthdaySpec(date: Date, cat: seq<(string, Table)>): Cell
    requires ValidDate(date) && BirthdayReadable(date, cat)
  {
    match FirstIndex(Names(cat), IsBirthdayName)
    case None => Str(NoBirthdayTable)
    case Some(i) => BirthdayIn(cat[i].1, DateKey(date.month, date.day))
  }

  /**
   * `date_to_maya_birthday(date, data)`: picks the first birthday table,
   * reads the label off it with `BirthdayInFrame`, or returns the
   * missing-table sentinel. The caller's frames are left as they were.
   */
  method DateToMayaBirthday(date: Date, data: seq<(string, Frame)>) returns (birthday: Cell)
    requires ValidDate(date)
    requires BirthdayReadable(date, Snapshot(data))
    ensures unchanged(FramesOf(data))
    ensures birthday == BirthdaySpec(date, Snapshot(data))
  {
    ghost var cat := Snapshot(data);
    assert Names(cat) == Names(data);
    var df := SelectFrame(data, IsBirthdayName);
    if df.None? {
      return Str(NoBirthdayTable);
    }
    ghost var i := FirstIndex(Names(cat), IsBirthdayName).value;
    assert df.value.Value() == cat[i].1;
    birthday := BirthdayInFrame(df.value, DateKey(date.month, date.day));
    assert Snapshot(data) == cat;
  }

  /**
   * The body of `date_to_maya_birthday` once the table is chosen: converts
   * the month/day column of a copy of it to text, and returns the label of
   * the first row whose month/day equals `lookup`, or the no-match sentinel.
   * The frame it is given is not changed.
   */
  method BirthdayInFrame(df: Frame, lookup: string) returns (birthday: Cell)
    requires df.Valid() && SolarMonthDay in df.columns && LabelledWhereMatched(df.Value(), lookup)
    ensures birthday == BirthdayIn(df.Value(), lookup)
  {
    var frame := df.Copy();
    frame.SetColumn(SolarMonthDay, MapColumn(frame.Value(), SolarMonthDay, AsStr));
    assert frame.Value() == DatesAsText(df.Value());
    var hits := Filter(frame.rows, DateEquals(lookup));
    MatchedRowHasLabel(df.Value(), lookup);
    birthday := if |hits| == 0 then Str(NoBirthdayMatch) else hits[0][MayaBirthday];
  }

  /**
   * With a birthday table selected, the result is the birthday label of the
   * first row whose month/day reads as the date's key, or the no-match
   * sentinel when no row does.
   */
  lemma BirthdayFirstMatch(date: Date, cat: seq<(string, Table)>, i: nat)
    requires ValidDate(date)
    requires BirthdayReadable(date, cat)
    requires FirstIndex(Names(cat), IsBirthdayName) == Some(i)
    ensures BirthdaySpec(date, cat) ==
      match FirstIndex(cat[i].1.rows, DateReadsAs(DateKey(date.month, date.day)))
      case None => Str(NoBirthdayMatch)
      case Some(k) => cat[i].1.rows[k][MayaBirthday]
  {
    var t := cat[i].1;
    var c := DatesAsText(t);
    var key := DateKey(date.month, date.day);
    forall j | 0 <= j < |t.rows|
      ensures DateEquals(key)(c.rows[j]) == DateReadsAs(key)(t.rows[j])
    {
    }
    FirstIndexAlike(c.rows, DateEquals(key), t.rows, DateReadsAs(key));
    FilterHead(c.rows, DateEquals(key));
    assert SolarMonthDay != MayaBirthday by {
      assert SolarMonthDay[0] != MayaBirthday[0];
    }
  }

  /** Without a birthday table the result is the missing-table sentinel, not an error. */
  lemma BirthdayNoTable(date: Date, cat: seq<(string, Table)>)
    requires ValidDate(date)
    requires BirthdayReadable(date, cat)
    requires forall i :: 0 <= i < |cat| ==> !IsBirthdayName(cat[i].0)
    ensures BirthdaySpec(date, cat) == Str(NoBirthdayTable)
  {
  }

  /**
   * The missing-table sentinel is not a sure sign of a missing table: a
   * selected table whose first matching row carries that very text as its
   * label gives the same result, so a caller cannot tell the two apart.
   */
  lemma TableSentinelAlsoALabel(date: Date, cat: seq<(string, Table)>, i: nat, k: nat)
    requires ValidDate(date)
    requires BirthdayReadable(date, cat)
    requires FirstIndex(Names(cat), IsBirthdayName) == Some(i)
    requires FirstIndex(cat[i].1.rows, DateReadsAs(DateKey(date.month, date.day))) == Some(k)
    requires MayaBirthday in cat[i].1.rows[k] && cat[i].1.rows[k][MayaBirthday] == Str(NoBirthdayTable)
    ensures BirthdaySpec(date, cat) == Str(NoBirthdayTable)
  {
    BirthdayFirstMatch(date, cat, i);
  }

  /** The year plays no part: dates with the same month and day get the same label. */
  lemma BirthdayIgnoresYear(d1: Date, d2: Date, cat: seq<(string, Table)>)
    requires ValidDate(d1) && d1.month == d2.month && d1.day == d2.day
    requires BirthdayReadable(d1, cat)
    ensures BirthdaySpec(d1, cat) == BirthdaySpec(d2, cat)
  {
  }
}
