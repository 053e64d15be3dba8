/** The extraction of `savePostDetails` (post-collector/main.go:220-358) run
    the way the Go code runs it: maps filled entry by entry and a row whose
    fields are overwritten loop by loop. Each method is proved to compute the
    fold of module Details that specifies it. */
module Extraction {
  import opened Wrappers
  import opened GoText
  import opened GoNumbers
  import opened Normalize
  import opened Models
  import opened Details

  /** The section map (main.go:221-225): a later section of the same name
      replaces an earlier one. */
  method IndexSections(sections: seq<Section>) returns (sectionMap: map<string, Section>)
    ensures sectionMap == IndexBy(sections, SectionName)
  {
    sectionMap := map[];
    for i := 0 to |sections|
      invariant sectionMap == IndexBy(sections[..i], SectionName)
    {
      sectionMap := sectionMap[sections[i].sectionName := sections[i]];
      assert sections[..i + 1][..i] == sections[..i];
    }
    assert sections[..|sections|] == sections;
  }

  /** The loop over the widgets of LIST_DATA (main.go:237-268): it records
      each widget under its type and applies the monthly-rent and deposit
      widgets to the prices, returning at the first price that does not
      read. */
  method ReadListData(seed: PostDetail, widgets: seq<Widget>)
    returns (typeMap: map<string, Widget>, r: Result<PostDetail, ExtractError>)
    ensures r == ApplyPriceWidgets(seed, widgets)
    ensures r.Ok? ==> typeMap == IndexBy(widgets, WidgetType)
  {
    typeMap := map[];
    var detail := seed;
    var i := 0;
    while i < |widgets|
      invariant 0 <= i <= |widgets|
      invariant typeMap == IndexBy(widgets[..i], WidgetType)
      invariant ApplyPriceWidgets(seed, widgets) == ApplyPriceWidgets(detail, widgets[i..])
    {
      var widget := widgets[i];
      assert widgets[i..][0] == widget && widgets[i..][1..] == widgets[i + 1..];
      typeMap := typeMap[widget.widgetType := widget];
      assert widgets[..i + 1][..i] == widgets[..i];
      var priced := ReadPriceWidget(detail, widget);
      if priced.Err? {
        return typeMap, priced;
      }
      detail := priced.value;
      i := i + 1;
    }
    assert widgets[..i] == widgets;
    r := Ok(detail);
  }

  /** The body of that loop for one widget (main.go:241-266). */
  method ReadPriceWidget(d: PostDetail, widget: Widget) returns (r: Result<PostDetail, ExtractError>)
    ensures r == ApplyPriceWidget(d, widget)
  {
    var detail := d;
    if widget.data.title == MonthlyRent {
      if widget.data.value == Free {
        detail := detail.(rent := 0.0);
      } else if widget.data.value == Negotiable {
        detail := detail.(mortage := -1.0);
      } else {
        var number := ParsePersianNumberToDecimal(widget.data.value);
        if number.Err? {
          return Err(InvalidPrice(number.error));
        }
        detail := detail.(rent := number.value);
      }
    }
    assert ApplyPriceWidget(d, widget) ==
      (if widget.data.title == Deposit then ApplyDepositValue(detail, widget.data.value) else Ok(detail));

    if widget.data.title == Deposit {
      if widget.data.value == Free {
        detail := detail.(mortage := 0.0);
      } else if widget.data.value == Negotiable {
        detail := detail.(mortage := -1.0);
      } else {
        var number := ParsePersianNumberToDecimal(widget.data.value);
        if number.Err? {
          return Err(InvalidPrice(number.error));
        }
        detail := detail.(mortage := number.value);
      }
    }
    r := Ok(detail);
  }

  /** The loop over the items of GROUP_FEATURE_ROW (main.go:272-288). */
  method ReadFeatureRow(d: PostDetail, items: seq<WidgetDataItem>) returns (r: PostDetail)
    ensures r == ApplyFeatureItems(d, items)
  {
    r := d;
    for i := 0 to |items|
      invariant r == ApplyFeatureItems(d, items[..i])
    {
      var item := items[i];
      var isElevator := Contains(item.title, ElevatorWord);
      var isParking := Contains(item.title, ParkingWord);
      var isWarehouse := Contains(item.title, WarehouseWord);
      if isElevator {
        r := r.(elevator := item.available);
      }
      if isParking {
        r := r.(parking := item.available);
      }
      if isWarehouse {
        r := r.(warehouse := item.available);
      }
      assert items[..i + 1][..i] == items[..i];
    }
    assert items[..|items|] == items;
  }

  /** The loop over the items of GROUP_INFO_ROW (main.go:292-329), returning
      at the first value that does not read. */
  method ReadInfoRow(d: PostDetail, items: seq<WidgetDataItem>) returns (r: Result<PostDetail, ExtractError>)
    ensures r == ApplyInfoItems(d, items)
  {
    var detail := d;
    var i := 0;
    while i < |items|
      invariant 0 <= i <= |items|
      invariant ApplyInfoItems(d, items) == ApplyInfoItems(detail, items[i..])
    {
      var item := items[i];
      assert items[i..][0] == item && items[i..][1..] == items[i + 1..];
      var informed := ReadInfoItem(detail, item);
      if informed.Err? {
        return informed;
      }
      detail := informed.value;
      i := i + 1;
    }
    r := Ok(detail);
  }

  /** The body of that loop for one item (main.go:293-328). */
  method ReadInfoItem(d: PostDetail, item: WidgetDataItem) returns (r: Result<PostDetail, ExtractError>)
    ensures r == ApplyInfoItem(d, item)
  {
    var detail := d;
    var isMeterage := Contains(item.title, MeterageWord);
    var isConstructionYear := Contains(item.title, BuiltWord);
    var isNumberOfRooms := Contains(item.title, RoomWord);
    var englishDigits := ConvertPersianToEnglishDigits(item.value);

    if isMeterage {
      var valueAsDecimal := ParseDecimal(englishDigits);
      if valueAsDecimal.None? {
        return Err(InvalidNumber(englishDigits));
      }
      detail := detail.(meterage := valueAsDecimal.value);
    }
    assert ReadMeterage(d, item) == Ok(detail);
    ghost var metered := detail;
    if isConstructionYear {
      var valueAsInt := Atoi(englishDigits);
      if valueAsInt.None? {
        return Err(InvalidNumber(englishDigits));
      }
      detail := detail.(constructionYear := valueAsInt.value);
    }
    assert ReadYear(metered, item) == Ok(detail);
    ghost var dated := detail;
    if isNumberOfRooms {
      if item.value == NoRoom {
        detail := detail.(rooms := 0);
      } else {
        var valueAsInt := Atoi(englishDigits);
        if valueAsInt.None? {
          return Err(InvalidNumber(englishDigits));
        }
        detail := detail.(rooms := valueAsInt.value);
      }
    }
    assert ReadRooms(dated, item) == Ok(detail);
    r := Ok(detail);
  }

  /** The fallback to RENT_SLIDER (main.go:331-356), as corrected: with no
      slider the row is kept as it is. */
  method ReadRentSlider(d: PostDetail, typeMap: map<string, Widget>) returns (r: Result<PostDetail, ExtractError>)
    ensures r == ApplyRentSlider(d, typeMap)
  {
    if d.mortage == 0.0 && d.rent == 0.0 {
      if RentSlider !in typeMap {
        return Ok(d);
      }
      var rentSliderWidget := typeMap[RentSlider];
      var detail := d;
      if rentSliderWidget.data.credit.Some? {
        if rentSliderWidget.data.credit.value.value != "" {
          var credit := ParseDecimal(rentSliderWidget.data.credit.value.value);
          if credit.None? {
            return Err(InvalidNumber(rentSliderWidget.data.credit.value.value));
          }
          detail := detail.(mortage := credit.value);
        }
      }
      assert ApplySliderAmount(d, rentSliderWidget.data.credit, MortagePrice) == Ok(detail);
      if rentSliderWidget.data.rent.Some? {
        if rentSliderWidget.data.rent.value.value != "" {
          var rent := ParseDecimal(rentSliderWidget.data.rent.value.value);
          if rent.None? {
            return Err(InvalidNumber(rentSliderWidget.data.rent.value.value));
          }
          detail := detail.(rent := rent.value);
        }
      }
      return Ok(detail);
    }
    return Ok(d);
  }

  /** The extraction of one listing's row from its detail sections. */
  method ExtractPostDetail(post: Post, sections: seq<Section>) returns (r: Result<PostDetail, ExtractError>)
    ensures r == ExtractDetail(post, sections)
  {
    var sectionMap := IndexSections(sections);
    var detailToSave := PostDetail(post.token, post.title,
      TrimAfterLastPattern(post.bottomDescriptionText, RegionMarker),
      0.0, 0.0, 0.0, 0, 0, false, false, false);
    assert detailToSave == SeedDetail(post);
    if ListData !in sectionMap {
      return Err(MissingListData);
    }
    var listDataSection := sectionMap[ListData];
    var typeMap, priced := ReadListData(detailToSave, listDataSection.widgets);
    if priced.Err? {
      return priced;
    }
    if GroupFeatureRow !in typeMap {
      return Err(MissingFeatureRow);
    }
    var featured := ReadFeatureRow(priced.value, typeMap[GroupFeatureRow].data.items);
    if GroupInfoRow !in typeMap {
      return Err(MissingInfoRow);
    }
    var informed := ReadInfoRow(featured, typeMap[GroupInfoRow].data.items);
    if informed.Err? {
      return informed;
    }
    r := ReadRentSlider(informed.value, typeMap);
  }
}
