/** The records of post-collector/models/model.go: what the search and detail
    endpoints return once decoded, and the two rows that are stored.

    A Go pointer field that may be nil is an `Option`; a slice of pointers is
    a sequence of values, since nothing here writes through those pointers. */
module Models {
  import opened Wrappers

  datatype ValueAndTransformedValue = ValueAndTransformedValue(value: string, transformedValue: string)

  datatype WidgetDataItem = WidgetDataItem(title: string, available: bool, value: string)

  datatype WidgetData = WidgetData(
    title: string,
    value: string,
    imageUrl: string,
    topDescriptionText: string,
    middleDescriptionText: string,
    bottomDescriptionText: string,
    token: string,
    items: seq<WidgetDataItem>,
    credit: Option<ValueAndTransformedValue>,
    rent: Option<ValueAndTransformedValue>)

  datatype Widget = Widget(data: WidgetData, widgetType: string)

  /** One page of search results. */
  datatype WidgetList = WidgetList(listWidgets: seq<Widget>)

  /** A stored listing, keyed by `token`. */
  datatype Post = Post(
    token: string,
    title: string,
    topDescriptionText: string,
    middleDescriptionText: string,
    bottomDescriptionText: string)

  datatype Section = Section(sectionName: string, widgets: seq<Widget>)

  /** A decoded detail document. */
  datatype PostDetailResponse = PostDetailResponse(sections: seq<Section>)

  /** A stored listing detail, keyed by `token`. The three amounts are exact
      decimals; -1 in `mortage` means "negotiable". */
  datatype PostDetail = PostDetail(
    token: string,
    title: string,
    region: string,
    meterage: real,
    mortage: real,
    rent: real,
    rooms: int,
    constructionYear: int,
    elevator: bool,
    parking: bool,
    warehouse: bool)
}
