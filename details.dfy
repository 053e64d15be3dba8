/** The field extraction of `savePostDetails` (post-collector/main.go:220-358):
    from the sections of a decoded detail document to the `PostDetail` row,
    or the reason no row is made. Every loop of the Go code is a fold here;
    module Extraction runs the same loops step by step and is proved to
    compute these folds. */
module Details {
  import opened Wrappers
  import opened GoText
  import opened GoNumbers
  import opened Normalize
  import opened Models

  const ListData: string := "LIST_DATA"
  const GroupFeatureRow: string := "GROUP_FEATURE_ROW"
  const GroupInfoRow: string := "GROUP_INFO_ROW"
  const RentSlider: string := "RENT_SLIDER"

  /** "اجارهٔ ماهانه" (monthly rent) and "ودیعه" (deposit): price widget titles. */
  const MonthlyRent: string := "\U{0627}\U{062C}\U{0627}\U{0631}\U{0647}\U{0654} \U{0645}\U{0627}\U{0647}\U{0627}\U{0646}\U{0647}"
  const Deposit: string := "\U{0648}\U{062F}\U{06CC}\U{0639}\U{0647}"
  /** "مجانی" (free) and "توافقی" (negotiable): price values that are not numbers. */
  const Free: string := "\U{0645}\U{062C}\U{0627}\U{0646}\U{06CC}"
  const Negotiable: string := "\U{062A}\U{0648}\U{0627}\U{0641}\U{0642}\U{06CC}"
  /** "آسانسور" (elevator), "پارکینگ" (parking), "انباری" (storeroom). */
  const ElevatorWord: string := "\U{0622}\U{0633}\U{0627}\U{0646}\U{0633}\U{0648}\U{0631}"
  const ParkingWord: string := "\U{067E}\U{0627}\U{0631}\U{06A9}\U{06CC}\U{0646}\U{06AF}"
  const WarehouseWord: string := "\U{0627}\U{0646}\U{0628}\U{0627}\U{0631}\U{06CC}"
  /** "متراژ" (floor area), "ساخت" (built), "اتاق" (room), "بدون اتاق" (no room). */
  const MeterageWord: string := "\U{0645}\U{062A}\U{0631}\U{0627}\U{0698}"
  const BuiltWord: string := "\U{0633}\U{0627}\U{062E}\U{062A}"
  const RoomWord: string := "\U{0627}\U{062A}\U{0627}\U{0642}"
  const NoRoom: string := "\U{0628}\U{062F}\U{0648}\U{0646} \U{0627}\U{062A}\U{0627}\U{0642}"
  /** "در " ("in "): the region is what follows its last occurrence. */
  const RegionMarker: string := "\U{062F}\U{0631} "

  /** Why no row is made. The first four are nil dereferences, on which the
      Go program panics; the last two are the errors it returns. */
  datatype ExtractError =
    | MissingListData
    | MissingFeatureRow
    | MissingInfoRow
    | MissingRentSlider
    | InvalidPrice(text: string)
    | InvalidNumber(text: string)

  // ---------------------------------------------------------------------
  // Indexing by name (main.go:221-225 and 237-238)

  /** A Go map filled by `m[key(x)] = x` for each `x` of `xs` in order. */
  function IndexBy<T>(xs: seq<T>, key: T -> string): (m: map<string, T>)
    ensures forall i | 0 <= i < |xs| :: key(xs[i]) in m
    ensures forall k | k in m :: key(m[k]) == k && m[k] in xs
  {
    if xs == [] then map[] else IndexBy(xs[..|xs| - 1], key)[key(xs[|xs| - 1]) := xs[|xs| - 1]]
  }

  /** A key maps to the last element that has it. */
  lemma {:induction false} IndexByLastWins<T>(xs: seq<T>, key: T -> string, i: int)
    requires 0 <= i < |xs|
    requires forall j | i < j < |xs| :: key(xs[j]) != key(xs[i])
    ensures IndexBy(xs, key)[key(xs[i])] == xs[i]
  {
    if i < |xs| - 1 {
      var init := xs[..|xs| - 1];
      assert init[i] == xs[i];
      forall j | i < j < |init| ensures key(init[j]) != key(init[i]) {
        assert init[j] == xs[j];
      }
      IndexByLastWins(init, key, i);
    }
  }

  /** A key is present exactly when some element has it. */
  lemma IndexByKeys<T>(xs: seq<T>, key: T -> string, k: string)
    ensures k in IndexBy(xs, key) <==> exists i | 0 <= i < |xs| :: key(xs[i]) == k
  {
    var m := IndexBy(xs, key);
    if k in m {
      var i :| 0 <= i < |xs| && xs[i] == m[k];
    }
  }

  function SectionName(s: Section): string { s.sectionName }

  function WidgetType(w: Widget): string { w.widgetType }

  // ---------------------------------------------------------------------
  // Prices (main.go:240-266)

  /** A monthly-rent value: free sets the rent to 0; negotiable sets the
      deposit, not the rent, to -1; any other value is read as a price. */
  function ApplyRentValue(d: PostDetail, value: string): (r: Result<PostDetail, ExtractError>)
    ensures r.Ok? <==> value == Free || value == Negotiable || PriceText(value).Some?
    ensures r.Err? ==> r.error == InvalidPrice(NormalizeDigits(value))
    ensures r.Ok? && value == Negotiable ==> r.value == d.(mortage := -1.0)
    ensures r.Ok? && value != Negotiable ==>
      r.value == d.(rent := if value == Free then 0.0 else PriceText(value).value)
  {
    if value == Free then Ok(d.(rent := 0.0))
    else if value == Negotiable then Ok(d.(mortage := -1.0))
    else match ParsePersianNumberToDecimal(value)
      case Ok(n) => Ok(d.(rent := n))
      case Err(t) => Err(InvalidPrice(t))
  }

  /** A deposit value: free is 0, negotiable is -1, anything else a price. */
  function ApplyDepositValue(d: PostDetail, value: string): (r: Result<PostDetail, ExtractError>)
    ensures r.Ok? <==> value == Free || value == Negotiable || PriceText(value).Some?
    ensures r.Err? ==> r.error == InvalidPrice(NormalizeDigits(value))
    ensures r.Ok? ==> (r.value ==
      d.(mortage := if value == Free then 0.0 else if value == Negotiable then -1.0 else PriceText(value).value))
  {
    if value == Free then Ok(d.(mortage := 0.0))
    else if value == Negotiable then Ok(d.(mortage := -1.0))
    else match ParsePersianNumberToDecimal(value)
      case Ok(n) => Ok(d.(mortage := n))
      case Err(t) => Err(InvalidPrice(t))
  }

  /** What one widget of LIST_DATA does to the prices. */
  function ApplyPriceWidget(d: PostDetail, w: Widget): (r: Result<PostDetail, ExtractError>)
    ensures r.Err? ==> r.error == InvalidPrice(NormalizeDigits(w.data.value))
  {
    var d' :- if w.data.title == MonthlyRent then ApplyRentValue(d, w.data.value) else Ok(d);
    if w.data.title == Deposit then ApplyDepositValue(d', w.data.value) else Ok(d')
  }

  /** The widgets of LIST_DATA in order; the first price that does not read
      aborts. */
  function ApplyPriceWidgets(d: PostDetail, ws: seq<Widget>): (r: Result<PostDetail, ExtractError>)
    ensures r.Err? ==> r.error.InvalidPrice?
    decreases |ws|
  {
    if ws == [] then Ok(d)
    else
      var d' :- ApplyPriceWidget(d, ws[0]);
      ApplyPriceWidgets(d', ws[1..])
  }

  datatype Price = RentPrice | MortagePrice

  function PriceOf(d: PostDetail, p: Price): real
  {
    if p.RentPrice? then d.rent else d.mortage
  }

  /** A price text read as a number: its digits, normalized, as a decimal. */
  function PriceText(v: string): (r: Option<real>)
  {
    ParseDecimal(NormalizeDigits(v))
  }

  /** The amount a widget writes into one price field, if it writes one. */
  function PriceWrite(w: Widget, p: Price): Option<real>
  {
    var t, v := w.data.title, w.data.value;
    var amount := if v == Free then Some(0.0) else if v == Negotiable then Some(-1.0) else PriceText(v);
    match p
    case RentPrice =>
      if t == MonthlyRent && v != Negotiable then amount else None
    case MortagePrice =>
      if t == Deposit || (t == MonthlyRent && v == Negotiable) then amount else None
  }

  /** A widget whose price, if it is a price widget, can be read. */
  predicate PriceWidgetOk(w: Widget)
  {
    (w.data.title == MonthlyRent || w.data.title == Deposit) ==>
      w.data.value == Free || w.data.value == Negotiable || PriceText(w.data.value).Some?
  }

  /** One widget: it aborts exactly when it is a price widget whose value does
      not read, with the normalized text; otherwise it writes what
      `PriceWrite` says into the two prices and leaves every other field. */
  lemma {:induction false} PriceWidgetEffect(d: PostDetail, w: Widget)
    ensures ApplyPriceWidget(d, w).Ok? <==> PriceWidgetOk(w)
    ensures ApplyPriceWidget(d, w).Ok? ==> (ApplyPriceWidget(d, w).value ==
      d.(rent := PriceWrite(w, RentPrice).GetOr(d.rent), mortage := PriceWrite(w, MortagePrice).GetOr(d.mortage)))
  {
    PriceWidgetReads(d, w);
    PriceWidgetWrites(d, w);
  }

  lemma PriceWidgetReads(d: PostDetail, w: Widget)
    ensures ApplyPriceWidget(d, w).Ok? <==> PriceWidgetOk(w)
  {
    assert |MonthlyRent| != |Deposit|;
  }

  lemma PriceWidgetWrites(d: PostDetail, w: Widget)
    ensures ApplyPriceWidget(d, w).Ok? ==> (ApplyPriceWidget(d, w).value ==
      d.(rent := PriceWrite(w, RentPrice).GetOr(d.rent), mortage := PriceWrite(w, MortagePrice).GetOr(d.mortage)))
  {
    var t, v := w.data.title, w.data.value;
    assert |MonthlyRent| != |Deposit|;
    assert |Free| != |Negotiable|;
    if t == MonthlyRent {
      if v == Free {
        assert ApplyPriceWidget(d, w) == Ok(d.(rent := 0.0));
      } else if v == Negotiable {
        assert ApplyPriceWidget(d, w) == Ok(d.(mortage := -1.0));
      }
    } else if t == Deposit {
      assert ApplyPriceWidget(d, w) == ApplyDepositValue(d, v);
    } else {
      assert ApplyPriceWidget(d, w) == Ok(d);
    }
  }

  /** The whole loop succeeds exactly when every widget's price reads, and
      on success changes nothing but the two prices. */
  lemma {:induction false} PriceWidgetsOk(d: PostDetail, ws: seq<Widget>)
    ensures ApplyPriceWidgets(d, ws).Ok? <==> forall i | 0 <= i < |ws| :: PriceWidgetOk(ws[i])
    ensures ApplyPriceWidgets(d, ws).Ok? ==> (ApplyPriceWidgets(d, ws).value ==
      d.(rent := ApplyPriceWidgets(d, ws).value.rent, mortage := ApplyPriceWidgets(d, ws).value.mortage))
    decreases |ws|
  {
    if ws != [] {
      PriceWidgetEffect(d, ws[0]);
      if ApplyPriceWidget(d, ws[0]).Ok? {
        PriceWidgetsOk(ApplyPriceWidget(d, ws[0]).value, ws[1..]);
        forall i | 0 <= i < |ws[1..]| ensures ws[1..][i] == ws[i + 1] { }
      }
    }
  }

  /** On failure the error is that of the first widget whose price does not
      read. */
  lemma {:induction false} PriceWidgetsFirstError(d: PostDetail, ws: seq<Widget>, i: int)
    requires 0 <= i < |ws| && !PriceWidgetOk(ws[i])
    requires forall j | 0 <= j < i :: PriceWidgetOk(ws[j])
    ensures ApplyPriceWidgets(d, ws) == Err(InvalidPrice(NormalizeDigits(ws[i].data.value)))
    decreases i
  {
    PriceWidgetEffect(d, ws[0]);
    var first := ApplyPriceWidget(d, ws[0]);
    if i == 0 {
      assert first.Err?;
      assert ApplyPriceWidgets(d, ws) == Err(first.error);
    } else {
      assert PriceWidgetOk(ws[0]);
      var rest := ws[1..];
      assert rest[i - 1] == ws[i];
      forall j | 0 <= j < i - 1 ensures PriceWidgetOk(rest[j]) { assert rest[j] == ws[j + 1]; }
      PriceWidgetsFirstError(first.value, rest, i - 1);
      assert ApplyPriceWidgets(d, ws) == ApplyPriceWidgets(first.value, rest);
    }
  }

  /** `ws[i]` writes price `p` and no later widget does. */
  predicate LastPriceWrite(ws: seq<Widget>, p: Price, i: int)
    requires 0 <= i < |ws|
  {
    PriceWrite(ws[i], p).Some? && forall j | i < j < |ws| :: PriceWrite(ws[j], p).None?
  }

  /** Last write wins: on success a price holds what the last widget writing
      it wrote, and its old value when no widget writes it. */
  lemma {:induction false} PriceLastWins(d: PostDetail, ws: seq<Widget>, p: Price)
    requires ApplyPriceWidgets(d, ws).Ok?
    ensures forall i | 0 <= i < |ws| && LastPriceWrite(ws, p, i) ::
      PriceOf(ApplyPriceWidgets(d, ws).value, p) == PriceWrite(ws[i], p).value
    ensures (forall i | 0 <= i < |ws| :: PriceWrite(ws[i], p).None?) ==>
      PriceOf(ApplyPriceWidgets(d, ws).value, p) == PriceOf(d, p)
    decreases |ws|
  {
    if ws != [] {
      PriceWidgetEffect(d, ws[0]);
      var d' := ApplyPriceWidget(d, ws[0]).value;
      var rest := ws[1..];
      PriceLastWins(d', rest, p);
      var r := ApplyPriceWidgets(d, ws).value;
      forall i | 0 <= i < |ws| && LastPriceWrite(ws, p, i) ensures PriceOf(r, p) == PriceWrite(ws[i], p).value {
        if i == 0 {
          forall j | 0 <= j < |rest| ensures PriceWrite(rest[j], p).None? { assert rest[j] == ws[j + 1]; }
        } else {
          assert rest[i - 1] == ws[i];
          forall j | i - 1 < j < |rest| ensures PriceWrite(rest[j], p).None? { assert rest[j] == ws[j + 1]; }
          assert LastPriceWrite(rest, p, i - 1);
        }
      }
      if forall i | 0 <= i < |ws| :: PriceWrite(ws[i], p).None? {
        assert PriceWrite(ws[0], p).None?;
        forall j | 0 <= j < |rest| ensures PriceWrite(rest[j], p).None? { assert rest[j] == ws[j + 1]; }
      }
    }
  }

  // ---------------------------------------------------------------------
  // Feature flags (main.go:270-288)

  datatype Feature = Elevator | Parking | Warehouse

  function Keyword(f: Feature): string
  {
    match f
    case Elevator => ElevatorWord
    case Parking => ParkingWord
    case Warehouse => WarehouseWord
  }

  function FlagOf(d: PostDetail, f: Feature): bool
  {
    match f
    case Elevator => d.elevator
    case Parking => d.parking
    case Warehouse => d.warehouse
  }

  /** One item of GROUP_FEATURE_ROW: each flag whose keyword is in the title
      takes the item's availability. */
  function ApplyFeatureItem(d: PostDetail, it: WidgetDataItem): PostDetail
  {
    var d1 := if Contains(it.title, ElevatorWord) then d.(elevator := it.available) else d;
    var d2 := if Contains(it.title, ParkingWord) then d1.(parking := it.available) else d1;
    if Contains(it.title, WarehouseWord) then d2.(warehouse := it.available) else d2
  }

  /** The items of GROUP_FEATURE_ROW in order; only the three flags change. */
  function ApplyFeatureItems(d: PostDetail, items: seq<WidgetDataItem>): (r: PostDetail)
    ensures r == d.(elevator := r.elevator, parking := r.parking, warehouse := r.warehouse)
  {
    if items == [] then d else ApplyFeatureItem(ApplyFeatureItems(d, items[..|items| - 1]), items[|items| - 1])
  }

  lemma FeatureItemFlag(d: PostDetail, it: WidgetDataItem, f: Feature)
    ensures FlagOf(ApplyFeatureItem(d, it), f) ==
      if Contains(it.title, Keyword(f)) then it.available else FlagOf(d, f)
  {
  }

  /** `items[i]` names feature `f` and no later item does. */
  predicate LastFeatureItem(items: seq<WidgetDataItem>, f: Feature, i: int)
    requires 0 <= i < |items|
  {
    Contains(items[i].title, Keyword(f)) && forall j | i < j < |items| :: !Contains(items[j].title, Keyword(f))
  }

  /** Last match wins: a flag takes the availability of the last item naming
      it, and items that do not name it leave it as it was. */
  lemma {:induction false} FeatureLastWins(d: PostDetail, items: seq<WidgetDataItem>, f: Feature)
    ensures forall i | 0 <= i < |items| && LastFeatureItem(items, f, i) ::
      FlagOf(ApplyFeatureItems(d, items), f) == items[i].available
    ensures (forall i | 0 <= i < |items| :: !Contains(items[i].title, Keyword(f))) ==>
      FlagOf(ApplyFeatureItems(d, items), f) == FlagOf(d, f)
  {
    if items != [] {
      var init, last := items[..|items| - 1], items[|items| - 1];
      var prev := ApplyFeatureItems(d, init);
      FeatureLastWins(d, init, f);
      FeatureItemFlag(prev, last, f);
      assert ApplyFeatureItems(d, items) == ApplyFeatureItem(prev, last);
      forall i | 0 <= i < |items| && LastFeatureItem(items, f, i)
        ensures FlagOf(ApplyFeatureItems(d, items), f) == items[i].available
      {
        if i < |items| - 1 {
          assert !Contains(last.title, Keyword(f));
          assert init[i] == items[i];
          forall j | i < j < |init| ensures !Contains(init[j].title, Keyword(f)) { assert init[j] == items[j]; }
          assert LastFeatureItem(init, f, i);
          assert FlagOf(prev, f) == items[i].available;
        }
      }
      if forall i | 0 <= i < |items| :: !Contains(items[i].title, Keyword(f)) {
        forall j | 0 <= j < |init| ensures !Contains(init[j].title, Keyword(f)) { assert init[j] == items[j]; }
      }
    }
  }

  // ---------------------------------------------------------------------
  // Floor area, year built and rooms (main.go:290-329)

  /** One item of GROUP_INFO_ROW. Its value is digit-normalized first; a title
      naming the floor area reads it as a decimal, one naming the year built
      as an integer, one naming rooms as an integer unless the value is
      "no room", which is 0. Any of these that does not read aborts. */
  function ApplyInfoItem(d: PostDetail, it: WidgetDataItem): (r: Result<PostDetail, ExtractError>)
    ensures r.Err? ==> r.error == InvalidNumber(NormalizeDigits(it.value))
  {
    var d1 :- ReadMeterage(d, it);
    var d2 :- ReadYear(d1, it);
    ReadRooms(d2, it)
  }

  /** The floor-area step of `ApplyInfoItem`. */
  function ReadMeterage(d: PostDetail, it: WidgetDataItem): (r: Result<PostDetail, ExtractError>)
    ensures r.Ok? <==> InfoFieldOk(it, MeterageInfo)
    ensures r.Err? ==> r.error == InvalidNumber(NormalizeDigits(it.value))
    ensures r.Ok? ==> r.value == d.(meterage := InfoWrite(it, MeterageInfo).GetOr(d.meterage))
  {
    var digits := NormalizeDigits(it.value);
    if Contains(it.title, MeterageWord) then
      match ParseDecimal(digits)
      case Some(v) => Ok(d.(meterage := v))
      case None => Err(InvalidNumber(digits))
    else Ok(d)
  }

  /** The year-built step of `ApplyInfoItem`. */
  function ReadYear(d: PostDetail, it: WidgetDataItem): (r: Result<PostDetail, ExtractError>)
    ensures r.Ok? <==> InfoFieldOk(it, YearInfo)
    ensures r.Err? ==> r.error == InvalidNumber(NormalizeDigits(it.value))
    ensures r.Ok? ==> r.value == d.(constructionYear := r.value.constructionYear)
    ensures r.Ok? ==> InfoOf(r.value, YearInfo) == InfoWrite(it, YearInfo).GetOr(InfoOf(d, YearInfo))
  {
    var digits := NormalizeDigits(it.value);
    if Contains(it.title, BuiltWord) then
      match Atoi(digits)
      case Some(n) => Ok(d.(constructionYear := n))
      case None => Err(InvalidNumber(digits))
    else Ok(d)
  }

  /** The rooms step of `ApplyInfoItem`. */
  function ReadRooms(d: PostDetail, it: WidgetDataItem): (r: Result<PostDetail, ExtractError>)
    ensures r.Ok? <==> InfoFieldOk(it, RoomsInfo)
    ensures r.Err? ==> r.error == InvalidNumber(NormalizeDigits(it.value))
    ensures r.Ok? ==> r.value == d.(rooms := r.value.rooms)
    ensures r.Ok? ==> InfoOf(r.value, RoomsInfo) == InfoWrite(it, RoomsInfo).GetOr(InfoOf(d, RoomsInfo))
  {
    var digits := NormalizeDigits(it.value);
    if Contains(it.title, RoomWord) then
      if it.value == NoRoom then Ok(d.(rooms := 0))
      else match Atoi(digits)
        case Some(n) => Ok(d.(rooms := n))
        case None => Err(InvalidNumber(digits))
    else Ok(d)
  }

  /** The items of GROUP_INFO_ROW in order; the first that does not read
      aborts. */
  function ApplyInfoItems(d: PostDetail, items: seq<WidgetDataItem>): (r: Result<PostDetail, ExtractError>)
    ensures r.Err? ==> r.error.InvalidNumber?
    decreases |items|
  {
    if items == [] then Ok(d)
    else
      var d' :- ApplyInfoItem(d, items[0]);
      ApplyInfoItems(d', items[1..])
  }

  datatype Info = MeterageInfo | YearInfo | RoomsInfo

  function InfoWord(f: Info): string
  {
    match f
    case MeterageInfo => MeterageWord
    case YearInfo => BuiltWord
    case RoomsInfo => RoomWord
  }

  /** The three fields, read as numbers. */
  function InfoOf(d: PostDetail, f: Info): real
  {
    match f
    case MeterageInfo => d.meterage
    case YearInfo => d.constructionYear as real
    case RoomsInfo => d.rooms as real
  }

  /** The number an item writes into one field, if it names the field and
      its value reads. */
  function InfoWrite(it: WidgetDataItem, f: Info): Option<real>
  {
    var digits := NormalizeDigits(it.value);
    if !Contains(it.title, InfoWord(f)) then None
    else match f
      case MeterageInfo => ParseDecimal(digits)
      case YearInfo => if Atoi(digits).Some? then Some(Atoi(digits).value as real) else None
      case RoomsInfo =>
        if it.value == NoRoom then Some(0.0)
        else if Atoi(digits).Some? then Some(Atoi(digits).value as real) else None
  }

  /** A field the item names reads. */
  predicate InfoFieldOk(it: WidgetDataItem, f: Info)
  {
    Contains(it.title, InfoWord(f)) ==> InfoWrite(it, f).Some?
  }

  /** An item whose every named field reads. */
  predicate InfoItemOk(it: WidgetDataItem)
  {
    InfoFieldOk(it, MeterageInfo) && InfoFieldOk(it, YearInfo) && InfoFieldOk(it, RoomsInfo)
  }

  /** One item aborts exactly when a field it names does not read; otherwise
      it writes what `InfoWrite` says into the three fields and leaves every
      other field. */
  lemma {:induction false} InfoItemEffect(d: PostDetail, it: WidgetDataItem)
    ensures ApplyInfoItem(d, it).Ok? <==> InfoItemOk(it)
    ensures ApplyInfoItem(d, it).Ok? ==>
      var r := ApplyInfoItem(d, it).value;
      && r == d.(meterage := r.meterage, constructionYear := r.constructionYear, rooms := r.rooms)
      && InfoOf(r, MeterageInfo) == InfoWrite(it, MeterageInfo).GetOr(InfoOf(d, MeterageInfo))
      && InfoOf(r, YearInfo) == InfoWrite(it, YearInfo).GetOr(InfoOf(d, YearInfo))
      && InfoOf(r, RoomsInfo) == InfoWrite(it, RoomsInfo).GetOr(InfoOf(d, RoomsInfo))
  {
    InfoItemReads(d, it);
  }

  lemma InfoItemReads(d: PostDetail, it: WidgetDataItem)
    ensures ApplyInfoItem(d, it).Ok? <==> InfoItemOk(it)
    ensures ApplyInfoItem(d, it).Ok? ==>
      var r := ApplyInfoItem(d, it).value;
      r == d.(meterage := r.meterage, constructionYear := r.constructionYear, rooms := r.rooms)
  {
  }

  /** The whole row succeeds exactly when every item reads, and on success
      changes nothing but the three fields. */
  lemma {:induction false} InfoItemsOk(d: PostDetail, items: seq<WidgetDataItem>)
    ensures ApplyInfoItems(d, items).Ok? <==> forall i | 0 <= i < |items| :: InfoItemOk(items[i])
    ensures ApplyInfoItems(d, items).Ok? ==>
      var r := ApplyInfoItems(d, items).value;
      r == d.(meterage := r.meterage, constructionYear := r.constructionYear, rooms := r.rooms)
    decreases |items|
  {
    if items != [] {
      InfoItemReads(d, items[0]);
      if ApplyInfoItem(d, items[0]).Ok? {
        InfoItemsOk(ApplyInfoItem(d, items[0]).value, items[1..]);
        forall i | 0 <= i < |items[1..]| ensures items[1..][i] == items[i + 1] { }
      }
    }
  }

  /** On failure the error is that of the first item that does not read. */
  lemma {:induction false} InfoItemsFirstError(d: PostDetail, items: seq<WidgetDataItem>, i: int)
    requires 0 <= i < |items| && !InfoItemOk(items[i])
    requires forall j | 0 <= j < i :: InfoItemOk(items[j])
    ensures ApplyInfoItems(d, items) == Err(InvalidNumber(NormalizeDigits(items[i].value)))
    decreases i
  {
    InfoItemReads(d, items[0]);
    var first := ApplyInfoItem(d, items[0]);
    if i == 0 {
      assert first.Err?;
      assert ApplyInfoItems(d, items) == Err(first.error);
    } else {
      assert InfoItemOk(items[0]);
      var rest := items[1..];
      assert rest[i - 1] == items[i];
      forall j | 0 <= j < i - 1 ensures InfoItemOk(rest[j]) { assert rest[j] == items[j + 1]; }
      InfoItemsFirstError(first.value, rest, i - 1);
      assert ApplyInfoItems(d, items) == ApplyInfoItems(first.value, rest);
    }
  }

  /** One field after one item that reads. */
  lemma InfoItemField(d: PostDetail, it: WidgetDataItem, f: Info)
    ensures ApplyInfoItem(d, it).Ok? ==>
      InfoOf(ApplyInfoItem(d, it).value, f) == InfoWrite(it, f).GetOr(InfoOf(d, f))
  {
    InfoItemEffect(d, it);
  }

  /** `items[i]` writes field `f` and no later item names it. */
  predicate LastInfoItem(items: seq<WidgetDataItem>, f: Info, i: int)
    requires 0 <= i < |items|
  {
    InfoWrite(items[i], f).Some? && forall j | i < j < |items| :: !Contains(items[j].title, InfoWord(f))
  }

  /** Last write wins for the three fields, as for the prices. */
  lemma InfoLastWins(d: PostDetail, items: seq<WidgetDataItem>, f: Info)
    requires ApplyInfoItems(d, items).Ok?
    ensures forall i | 0 <= i < |items| && LastInfoItem(items, f, i) ::
      InfoOf(ApplyInfoItems(d, items).value, f) == InfoWrite(items[i], f).value
    ensures (forall i | 0 <= i < |items| :: !Contains(items[i].title, InfoWord(f))) ==>
      InfoOf(ApplyInfoItems(d, items).value, f) == InfoOf(d, f)
  {
    forall i | 0 <= i < |items| && LastInfoItem(items, f, i)
      ensures InfoOf(ApplyInfoItems(d, items).value, f) == InfoWrite(items[i], f).value
    {
      InfoLastWriteWins(d, items, f, i);
    }
    if forall i | 0 <= i < |items| :: !Contains(items[i].title, InfoWord(f)) {
      InfoUnnamedKept(d, items, f);
    }
  }

  /** Items that do not name a field leave it as it was. */
  lemma {:induction false} InfoUnnamedKept(d: PostDetail, items: seq<WidgetDataItem>, f: Info)
    requires ApplyInfoItems(d, items).Ok?
    requires forall i | 0 <= i < |items| :: !Contains(items[i].title, InfoWord(f))
    ensures InfoOf(ApplyInfoItems(d, items).value, f) == InfoOf(d, f)
    decreases |items|
  {
    if items != [] {
      InfoItemField(d, items[0], f);
      var d' := ApplyInfoItem(d, items[0]).value;
      var rest := items[1..];
      assert ApplyInfoItems(d, items) == ApplyInfoItems(d', rest);
      assert !Contains(items[0].title, InfoWord(f));
      forall j | 0 <= j < |rest| ensures !Contains(rest[j].title, InfoWord(f)) { assert rest[j] == items[j + 1]; }
      InfoUnnamedKept(d', rest, f);
    }
  }

  /** The field holds what the last item writing it wrote. */
  lemma {:induction false} InfoLastWriteWins(d: PostDetail, items: seq<WidgetDataItem>, f: Info, i: int)
    requires ApplyInfoItems(d, items).Ok?
    requires 0 <= i < |items| && LastInfoItem(items, f, i)
    ensures InfoOf(ApplyInfoItems(d, items).value, f) == InfoWrite(items[i], f).value
    decreases |items|
  {
    InfoItemField(d, items[0], f);
    var d' := ApplyInfoItem(d, items[0]).value;
    var rest := items[1..];
    assert ApplyInfoItems(d, items) == ApplyInfoItems(d', rest);
    LastInfoItemRest(items, f, i);
    if i == 0 {
      InfoUnnamedKept(d', rest, f);
    } else {
      InfoLastWriteWins(d', rest, f, i - 1);
    }
  }

  /** Past the first item, the last item naming `f` is still the last one. */
  lemma LastInfoItemRest(items: seq<WidgetDataItem>, f: Info, i: int)
    requires 0 <= i < |items| && LastInfoItem(items, f, i)
    ensures i == 0 ==> forall j | 0 <= j < |items| - 1 :: !Contains(items[1..][j].title, InfoWord(f))
    ensures i > 0 ==> LastInfoItem(items[1..], f, i - 1)
  {
    var rest := items[1..];
    forall j | i - 1 < j < |rest| ensures !Contains(rest[j].title, InfoWord(f)) { assert rest[j] == items[j + 1]; }
    if i > 0 {
      assert rest[i - 1] == items[i];
    }
  }

  // ---------------------------------------------------------------------
  // The RENT_SLIDER fallback (main.go:331-358)

  /** The price that is not `p`. */
  function OtherPrice(p: Price): Price
  {
    if p.RentPrice? then MortagePrice else RentPrice
  }

  /** The amount a slider field writes: present and non-empty, it is read as
      a plain decimal (no digit normalization). */
  function SliderWrite(amount: Option<ValueAndTransformedValue>): Option<real>
  {
    if amount.Some? && amount.value.value != "" then ParseDecimal(amount.value.value) else None
  }

  /** A slider field that is absent, empty or reads. */
  predicate SliderAmountOk(amount: Option<ValueAndTransformedValue>)
  {
    amount.Some? && amount.value.value != "" ==> ParseDecimal(amount.value.value).Some?
  }

  /** One slider amount: present and non-empty, it is read as a plain decimal
      (no digit normalization) into the price; otherwise nothing changes. */
  function ApplySliderAmount(d: PostDetail, amount: Option<ValueAndTransformedValue>, p: Price): (r: Result<PostDetail, ExtractError>)
    ensures r.Ok? <==> SliderAmountOk(amount)
    ensures r.Ok? ==> r.value == d.(rent := PriceOf(r.value, RentPrice), mortage := PriceOf(r.value, MortagePrice))
    ensures r.Ok? ==> PriceOf(r.value, OtherPrice(p)) == PriceOf(d, OtherPrice(p))
    ensures (amount.None? || amount.value.value == "") ==> r == Ok(d)
    ensures amount.Some? && amount.value.value != "" ==>
      match ParseDecimal(amount.value.value)
      case Some(v) => r.Ok? && PriceOf(r.value, p) == v
      case None => r == Err(InvalidNumber(amount.value.value))
  {
    match amount
    case Some(a) =>
      if a.value != "" then
        match ParseDecimal(a.value)
        case Some(v) => Ok(if p.RentPrice? then d.(rent := v) else d.(mortage := v))
        case None => Err(InvalidNumber(a.value))
      else Ok(d)
    case None => Ok(d)
  }

  /** The slider's credit into the deposit, then its rent into the rent. It
      fails exactly when a present, non-empty amount does not read, with the
      text of the first such amount; otherwise each price takes its amount
      when there is one and keeps its value when not, and nothing else
      changes. */
  function ApplySlider(d: PostDetail, slider: WidgetData): (r: Result<PostDetail, ExtractError>)
    ensures r.Ok? <==> SliderAmountOk(slider.credit) && SliderAmountOk(slider.rent)
    ensures r.Ok? ==> (r.value ==
      d.(mortage := SliderWrite(slider.credit).GetOr(d.mortage), rent := SliderWrite(slider.rent).GetOr(d.rent)))
    ensures !SliderAmountOk(slider.credit) ==> r == Err(InvalidNumber(slider.credit.value.value))
    ensures SliderAmountOk(slider.credit) && !SliderAmountOk(slider.rent) ==>
      r == Err(InvalidNumber(slider.rent.value.value))
  {
    var d' :- ApplySliderAmount(d, slider.credit, MortagePrice);
    ApplySliderAmount(d', slider.rent, RentPrice)
  }

  /** The fallback as written: when both prices are exactly 0 the slider is
      read, and when there is no slider Go dereferences a nil widget. */
  function ApplyRentSliderAsWritten(d: PostDetail, typeMap: map<string, Widget>): (r: Result<PostDetail, ExtractError>)
    ensures d.mortage != 0.0 || d.rent != 0.0 ==> r == Ok(d)
    ensures r == Err(MissingRentSlider) <==> d.mortage == 0.0 && d.rent == 0.0 && RentSlider !in typeMap
    ensures d.mortage == 0.0 && d.rent == 0.0 && RentSlider in typeMap ==>
      SliderRead(d, typeMap[RentSlider].data, r)
  {
    if d.mortage == 0.0 && d.rent == 0.0 then
      if RentSlider !in typeMap then Err(MissingRentSlider)
      else ApplySlider(d, typeMap[RentSlider].data)
    else Ok(d)
  }

  /** `r` is what consulting `slider` yields from `d`: it fails exactly when
      an amount does not read, and otherwise each price takes the amount
      given for it, keeping its old value when that amount is absent or
      empty. */
  predicate SliderRead(d: PostDetail, slider: WidgetData, r: Result<PostDetail, ExtractError>)
  {
    && r == ApplySlider(d, slider)
    && (r.Ok? <==> SliderAmountOk(slider.credit) && SliderAmountOk(slider.rent))
    && (r.Ok? ==> r.value == d.(mortage := SliderWrite(slider.credit).GetOr(d.mortage),
                                rent := SliderWrite(slider.rent).GetOr(d.rent)))
  }

  /** The fallback as its log message intends: with no slider the row keeps
      its zero prices. */
  function ApplyRentSlider(d: PostDetail, typeMap: map<string, Widget>): (r: Result<PostDetail, ExtractError>)
    ensures d.mortage != 0.0 || d.rent != 0.0 ==> r == Ok(d)
    ensures RentSlider !in typeMap ==> r == Ok(d)
    ensures r.Ok? ==> r.value == d.(rent := r.value.rent, mortage := r.value.mortage)
    ensures r != Err(MissingRentSlider)
    ensures d.mortage == 0.0 && d.rent == 0.0 && RentSlider in typeMap ==>
      SliderRead(d, typeMap[RentSlider].data, r)
  {
    if d.mortage == 0.0 && d.rent == 0.0 && RentSlider in typeMap then
      ApplySlider(d, typeMap[RentSlider].data)
    else Ok(d)
  }

  /** The two fallbacks differ on exactly one kind of input: both prices 0
      and no slider, where the code as written panics. */
  lemma RentSliderFinding(d: PostDetail, typeMap: map<string, Widget>)
    ensures ApplyRentSliderAsWritten(d, typeMap) != ApplyRentSlider(d, typeMap) <==>
      d.mortage == 0.0 && d.rent == 0.0 && RentSlider !in typeMap
    ensures d.mortage == 0.0 && d.rent == 0.0 && RentSlider !in typeMap ==>
      ApplyRentSliderAsWritten(d, typeMap) == Err(MissingRentSlider) && ApplyRentSlider(d, typeMap) == Ok(d)
  {
  }

  /** An input that shows the difference: a LIST_DATA section holding only a
      feature row and an empty info row, with no price widget and no slider.
      The extraction gets past every loop with both prices still 0, and the
      fallback as written then dereferences the missing slider, while the
      corrected one keeps the row. */
  lemma {:induction false} MissingSliderExample(seed: PostDetail, feature: Widget, info: Widget)
    requires seed.mortage == 0.0 && seed.rent == 0.0
    requires feature.widgetType == GroupFeatureRow && info.widgetType == GroupInfoRow
    requires feature.data.title != MonthlyRent && feature.data.title != Deposit
    requires info.data.title != MonthlyRent && info.data.title != Deposit
    requires info.data.items == []
    ensures var ws := [feature, info];
      && ApplyRentSliderAsWritten(ApplyFeatureItems(seed, feature.data.items), IndexBy(ws, WidgetType)) == Err(MissingRentSlider)
      && ExtractFromWidgets(seed, ws) == Ok(ApplyFeatureItems(seed, feature.data.items))
  {
    var ws := [feature, info];
    var typeMap := IndexBy(ws, WidgetType);
    assert ws[..1] == [feature];
    assert [feature][..0] == [];
    assert IndexBy([feature], WidgetType) == map[][GroupFeatureRow := feature];
    assert typeMap == map[][GroupFeatureRow := feature][GroupInfoRow := info];
    assert |RentSlider| != |GroupFeatureRow| && |RentSlider| != |GroupInfoRow|;
    assert RentSlider !in typeMap;
    assert ApplyPriceWidget(seed, feature) == Ok(seed);
    assert ApplyPriceWidget(seed, info) == Ok(seed);
    assert ws[1..][1..] == [];
    assert ApplyPriceWidgets(seed, ws[1..]) == Ok(seed);
    assert ApplyPriceWidgets(seed, ws) == Ok(seed);
    var d2 := ApplyFeatureItems(seed, feature.data.items);
    assert ApplyInfoItems(d2, info.data.items) == Ok(d2);
  }

  /** A negotiable price (-1) is never replaced by the slider. */
  lemma NegotiableBlocksSlider(d: PostDetail, typeMap: map<string, Widget>)
    requires d.mortage == -1.0
    ensures ApplyRentSlider(d, typeMap) == Ok(d)
    ensures ApplyRentSliderAsWritten(d, typeMap) == Ok(d)
  {
  }

  /** With both prices 0 a slider whose credit and rent both read replaces
      both prices with them. */
  lemma {:induction false} SliderFillsZeroPrices(d: PostDetail, typeMap: map<string, Widget>, credit: real, rent: real)
    requires d.mortage == 0.0 && d.rent == 0.0 && RentSlider in typeMap
    requires var s := typeMap[RentSlider].data;
      && s.credit.Some? && s.credit.value.value != "" && ParseDecimal(s.credit.value.value) == Some(credit)
      && s.rent.Some? && s.rent.value.value != "" && ParseDecimal(s.rent.value.value) == Some(rent)
    ensures ApplyRentSlider(d, typeMap) == Ok(d.(mortage := credit, rent := rent))
  {
    var s := typeMap[RentSlider].data;
    var d' := ApplySliderAmount(d, s.credit, MortagePrice).value;
    assert d' == d.(mortage := credit);
    assert ApplySliderAmount(d', s.rent, RentPrice).value == d'.(rent := rent);
  }

  // ---------------------------------------------------------------------
  // The whole extraction (main.go:220-358)

  /** The row before any widget is read: token and title of the listing and
      the region cut out of its bottom description; every amount 0 and every
      flag false, as Go's zero values. */
  function SeedDetail(post: Post): (d: PostDetail)
    ensures d.token == post.token && d.title == post.title
    ensures d.region == TrimAfterLastPattern(post.bottomDescriptionText, RegionMarker)
    ensures d.mortage == 0.0 && d.rent == 0.0
  {
    PostDetail(post.token, post.title, TrimAfterLastPattern(post.bottomDescriptionText, RegionMarker),
               0.0, 0.0, 0.0, 0, 0, false, false, false)
  }

  /** Token, title and region of `d` are those of `seed`. */
  predicate SameIdentity(d: PostDetail, seed: PostDetail)
  {
    d.token == seed.token && d.title == seed.title && d.region == seed.region
  }

  /** Everything after the LIST_DATA lookup: the price loop, then the feature
      row, the info row and the fallback, each through the widget of its type
      that came last. */
  function ExtractFromWidgets(seed: PostDetail, ws: seq<Widget>): (r: Result<PostDetail, ExtractError>)
    ensures r.Ok? ==> SameIdentity(r.value, seed)
    ensures r != Err(MissingListData)
  {
    var typeMap := IndexBy(ws, WidgetType);
    PriceWidgetsOk(seed, ws);
    var d1 :- ApplyPriceWidgets(seed, ws);
    if GroupFeatureRow !in typeMap then Err(MissingFeatureRow)
    else
      var d2 := ApplyFeatureItems(d1, typeMap[GroupFeatureRow].data.items);
      if GroupInfoRow !in typeMap then Err(MissingInfoRow)
      else
        InfoItemsOk(d2, typeMap[GroupInfoRow].data.items);
        var d3 :- ApplyInfoItems(d2, typeMap[GroupInfoRow].data.items);
        ApplyRentSlider(d3, typeMap)
  }

  /** The row made from a listing and the sections of its detail document. */
  function ExtractDetail(post: Post, sections: seq<Section>): (r: Result<PostDetail, ExtractError>)
    ensures r.Ok? ==> r.value.token == post.token && r.value.title == post.title
    ensures r.Ok? ==> r.value.region == TrimAfterLastPattern(post.bottomDescriptionText, RegionMarker)
    ensures r == Err(MissingListData) <==> forall i | 0 <= i < |sections| :: sections[i].sectionName != ListData
  {
    var sectionMap := IndexBy(sections, SectionName);
    IndexByKeys(sections, SectionName, ListData);
    if ListData !in sectionMap then Err(MissingListData)
    else ExtractFromWidgets(SeedDetail(post), sectionMap[ListData].widgets)
  }

  /** The prices after the price loop are both 0 and there is a slider, so
      the fallback reads it. */
  predicate SliderConsulted(priced: Result<PostDetail, ExtractError>, typeMap: map<string, Widget>)
  {
    priced.Ok? && priced.value.mortage == 0.0 && priced.value.rent == 0.0 && RentSlider in typeMap
  }

  /** What the widgets of LIST_DATA must satisfy for a row to be made: every
      price reads, the feature row and the info row are there, every item of
      the info row reads, and a slider that is consulted has amounts that
      read. */
  predicate WidgetsRead(seed: PostDetail, ws: seq<Widget>)
  {
    var typeMap := IndexBy(ws, WidgetType);
    && (forall i | 0 <= i < |ws| :: PriceWidgetOk(ws[i]))
    && GroupFeatureRow in typeMap
    && GroupInfoRow in typeMap
    && (forall i | 0 <= i < |typeMap[GroupInfoRow].data.items| :: InfoItemOk(typeMap[GroupInfoRow].data.items[i]))
    && (SliderConsulted(ApplyPriceWidgets(seed, ws), typeMap) ==>
          SliderAmountOk(typeMap[RentSlider].data.credit) && SliderAmountOk(typeMap[RentSlider].data.rent))
  }

  /** The steps after the price loop leave the prices as that loop left
      them until the fallback. */
  lemma RowsKeepPrices(seed: PostDetail, ws: seq<Widget>)
    requires ApplyPriceWidgets(seed, ws).Ok?
    requires GroupFeatureRow in IndexBy(ws, WidgetType) && GroupInfoRow in IndexBy(ws, WidgetType)
    ensures var typeMap := IndexBy(ws, WidgetType);
      var d1 := ApplyPriceWidgets(seed, ws).value;
      var d2 := ApplyFeatureItems(d1, typeMap[GroupFeatureRow].data.items);
      ApplyInfoItems(d2, typeMap[GroupInfoRow].data.items).Ok? ==>
        var d3 := ApplyInfoItems(d2, typeMap[GroupInfoRow].data.items).value;
        d3.mortage == d1.mortage && d3.rent == d1.rent
  {
    var typeMap := IndexBy(ws, WidgetType);
    var d1 := ApplyPriceWidgets(seed, ws).value;
    var d2 := ApplyFeatureItems(d1, typeMap[GroupFeatureRow].data.items);
    InfoItemsOk(d2, typeMap[GroupInfoRow].data.items);
  }

  /** A row is made from the widgets exactly when they read. */
  lemma ExtractFromWidgetsOk(seed: PostDetail, ws: seq<Widget>)
    ensures ExtractFromWidgets(seed, ws).Ok? <==> WidgetsRead(seed, ws)
  {
    var typeMap := IndexBy(ws, WidgetType);
    PriceWidgetsOk(seed, ws);
    if ApplyPriceWidgets(seed, ws).Ok? && GroupFeatureRow in typeMap && GroupInfoRow in typeMap {
      var d1 := ApplyPriceWidgets(seed, ws).value;
      var d2 := ApplyFeatureItems(d1, typeMap[GroupFeatureRow].data.items);
      InfoItemsOk(d2, typeMap[GroupInfoRow].data.items);
      RowsKeepPrices(seed, ws);
    }
  }

  /** A row is made from a document exactly when it has a LIST_DATA section
      whose widgets (those of the last section of that name) read. */
  lemma ExtractDetailOk(post: Post, sections: seq<Section>)
    ensures ExtractDetail(post, sections).Ok? <==>
      ListData in IndexBy(sections, SectionName) &&
      WidgetsRead(SeedDetail(post), IndexBy(sections, SectionName)[ListData].widgets)
  {
    var sectionMap := IndexBy(sections, SectionName);
    if ListData in sectionMap {
      ExtractFromWidgetsOk(SeedDetail(post), sectionMap[ListData].widgets);
    }
  }

  /** The first price that does not read decides the error. */
  lemma ExtractPriceError(seed: PostDetail, ws: seq<Widget>, i: int)
    requires 0 <= i < |ws| && !PriceWidgetOk(ws[i])
    requires forall j | 0 <= j < i :: PriceWidgetOk(ws[j])
    ensures ExtractFromWidgets(seed, ws) == Err(InvalidPrice(NormalizeDigits(ws[i].data.value)))
  {
    PriceWidgetsFirstError(seed, ws, i);
  }

  /** With every price read, a missing feature row is reported first, then
      a missing info row. */
  lemma ExtractMissingRow(seed: PostDetail, ws: seq<Widget>)
    requires forall i | 0 <= i < |ws| :: PriceWidgetOk(ws[i])
    ensures GroupFeatureRow !in IndexBy(ws, WidgetType) ==> ExtractFromWidgets(seed, ws) == Err(MissingFeatureRow)
    ensures GroupFeatureRow in IndexBy(ws, WidgetType) && GroupInfoRow !in IndexBy(ws, WidgetType) ==>
      ExtractFromWidgets(seed, ws) == Err(MissingInfoRow)
  {
    PriceWidgetsOk(seed, ws);
  }

  /** With every price read and both rows there, the first info item that
      does not read decides the error. */
  lemma ExtractInfoError(seed: PostDetail, ws: seq<Widget>, i: int)
    requires forall j | 0 <= j < |ws| :: PriceWidgetOk(ws[j])
    requires GroupFeatureRow in IndexBy(ws, WidgetType) && GroupInfoRow in IndexBy(ws, WidgetType)
    requires var items := IndexBy(ws, WidgetType)[GroupInfoRow].data.items;
      && 0 <= i < |items| && !InfoItemOk(items[i])
      && forall j | 0 <= j < i :: InfoItemOk(items[j])
    ensures ExtractFromWidgets(seed, ws) ==
      Err(InvalidNumber(NormalizeDigits(IndexBy(ws, WidgetType)[GroupInfoRow].data.items[i].value)))
  {
    var typeMap := IndexBy(ws, WidgetType);
    PriceWidgetsOk(seed, ws);
    var d1 := ApplyPriceWidgets(seed, ws).value;
    var d2 := ApplyFeatureItems(d1, typeMap[GroupFeatureRow].data.items);
    InfoItemsFirstError(d2, typeMap[GroupInfoRow].data.items, i);
  }

  /** With every price and item read and the slider consulted, the first
      slider amount that does not read decides the error, with its raw text. */
  lemma ExtractSliderError(seed: PostDetail, ws: seq<Widget>)
    requires forall j | 0 <= j < |ws| :: PriceWidgetOk(ws[j])
    requires GroupFeatureRow in IndexBy(ws, WidgetType) && GroupInfoRow in IndexBy(ws, WidgetType)
    requires var items := IndexBy(ws, WidgetType)[GroupInfoRow].data.items;
      forall j | 0 <= j < |items| :: InfoItemOk(items[j])
    requires SliderConsulted(ApplyPriceWidgets(seed, ws), IndexBy(ws, WidgetType))
    ensures var slider := IndexBy(ws, WidgetType)[RentSlider].data;
      !SliderAmountOk(slider.credit) ==> ExtractFromWidgets(seed, ws) == Err(InvalidNumber(slider.credit.value.value))
    ensures var slider := IndexBy(ws, WidgetType)[RentSlider].data;
      SliderAmountOk(slider.credit) && !SliderAmountOk(slider.rent) ==>
        ExtractFromWidgets(seed, ws) == Err(InvalidNumber(slider.rent.value.value))
  {
    var typeMap := IndexBy(ws, WidgetType);
    PriceWidgetsOk(seed, ws);
    var d1 := ApplyPriceWidgets(seed, ws).value;
    var d2 := ApplyFeatureItems(d1, typeMap[GroupFeatureRow].data.items);
    InfoItemsOk(d2, typeMap[GroupInfoRow].data.items);
    RowsKeepPrices(seed, ws);
  }
}
