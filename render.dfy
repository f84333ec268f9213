/**
 * The result renderer of index.tsx (displayResult), with the DOM taken away:
 * a parsed event record becomes a card with a title, the detail entries the
 * record has, an optional promotion list and a fixed financial overview.
 */
module ResultRenderer {
  import opened Wrappers
  import Promotion

  /** A parsed response: field name to its text (numbers already rendered as text). */
  type Record = map<string, string>

  /** The twelve fields the response schema marks as required. */
  const RequiredKeys: seq<string> := [
    "eventName", "dateSuggestion", "targetAudience", "entertainment",
    "menuConcept", "promotionStrategy", "costEstimate", "expectedRevenue",
    "netProfit", "guestCapacity", "eventObjective", "successMetrics"]

  /** The record has every field the schema requires. */
  predicate Conforms(data: Record) {
    forall i :: 0 <= i < |RequiredKeys| ==> RequiredKeys[i] in data
  }

  /** The detail fields, declared in the order the icon and label tables list them. */
  datatype DetailKey =
    | DateSuggestion | TargetAudience | GuestCapacity | Entertainment
    | MenuConcept | EventObjective | SuccessMetrics
  {
    /** The record field the entry shows. */
    function Name(): string {
      match this
      case DateSuggestion => "dateSuggestion"
      case TargetAudience => "targetAudience"
      case GuestCapacity => "guestCapacity"
      case Entertainment => "entertainment"
      case MenuConcept => "menuConcept"
      case EventObjective => "eventObjective"
      case SuccessMetrics => "successMetrics"
    }

    /** The emoji shown before the label. */
    function Icon(): string {
      match this
      case DateSuggestion => "\U{1F4C5}"
      case TargetAudience => "\U{1F465}"
      case GuestCapacity => "\U{1F468}\U{200D}\U{1F469}\U{200D}\U{1F467}\U{200D}\U{1F466}"
      case Entertainment => "\U{1F3A4}"
      case MenuConcept => "\U{1F37D}\U{FE0F}"
      case EventObjective => "\U{1F3AF}"
      case SuccessMetrics => "\U{1F4C8}"
    }

    function Label(): string {
      match this
      case DateSuggestion => "Date Suggestion"
      case TargetAudience => "Target Audience"
      case GuestCapacity => "Guest Capacity"
      case Entertainment => "Entertainment"
      case MenuConcept => "Menu Concept"
      case EventObjective => "Event Objective"
      case SuccessMetrics => "Success Metrics"
    }

    /** Position in the tables' key order, which is the order of iteration. */
    function Ordinal(): nat {
      match this
      case DateSuggestion => 0
      case TargetAudience => 1
      case GuestCapacity => 2
      case Entertainment => 3
      case MenuConcept => 4
      case EventObjective => 5
      case SuccessMetrics => 6
    }
  }

  const DetailOrder: seq<DetailKey> :=
    [DateSuggestion, TargetAudience, GuestCapacity, Entertainment, MenuConcept, EventObjective, SuccessMetrics]

  const FinancialLabels: seq<string> := ["Cost Estimate", "Expected Revenue", "Net Profit"]
  const FinancialKeys: seq<string> := ["costEstimate", "expectedRevenue", "netProfit"]

  /** A detail entry: the key it shows and the field's text. */
  datatype DetailItem = DetailItem(key: DetailKey, text: string)
  {
    /** The entry's bold heading, "icon label". */
    function Heading(): string {
      key.Icon() + " " + key.Label()
    }
  }

  datatype FinancialItem = FinancialItem(caption: string, text: string)

  /** The rendered card, as an abstract value. */
  datatype Card = Card(
    title: string,
    details: seq<DetailItem>,
    promotion: Option<seq<string>>,
    financials: seq<FinancialItem>)


  /**
   * Setting textContent to a missing field shows nothing, so the title of a
   * record without an event name is empty.
   */
  function Title(data: Record): string {
    if "eventName" in data then data["eventName"] else ""
  }

  /** A field interpolated into a template literal: a missing one reads "undefined". */
  function TemplateText(data: Record, key: string): string {
    if key in data then data[key] else "undefined"
  }

  /** The promotion block is shown when the field is present and non-empty. */
  predicate HasPromotion(data: Record) {
    "promotionStrategy" in data && data["promotionStrategy"] != ""
  }

  /** The detail entries for the given keys that the record has, in the keys' order. */
  function DetailsOf(keys: seq<DetailKey>, data: Record): (ds: seq<DetailItem>)
    ensures |ds| <= |keys|
  {
    if keys == [] then []
    else
      var key := keys[|keys| - 1];
      DetailsOf(keys[..|keys| - 1], data)
      + (if key.Name() in data then [DetailItem(key, data[key.Name()])] else [])
  }

  /** The financial entries: one per financial label, in the labels' order. */
  function Financials(data: Record): (fs: seq<FinancialItem>)
    ensures |fs| == |FinancialLabels|
  {
    seq(|FinancialLabels|, i requires 0 <= i < |FinancialLabels| =>
      FinancialItem(FinancialLabels[i], TemplateText(data, FinancialKeys[i])))
  }

  /** The card displayResult builds for a record. */
  function Render(data: Record): Card {
    Card(
      Title(data),
      DetailsOf(DetailOrder, data),
      if HasPromotion(data) then Some(Promotion.Items(data["promotionStrategy"])) else None,
      Financials(data))
  }

  /**
   * displayResult's construction of the card: one loop over the detail keys,
   * the promotion list item by item, one loop over the financial entries.
   */
  method BuildCard(data: Record) returns (card: Card)
    ensures card == Render(data)
  {
    var details := BuildDetails(data);
    var promotion := BuildPromotion(data);
    var financials := BuildFinancials(data);
    card := Card(Title(data), details, promotion, financials);
  }

  /** The for-in loop over the label table, keeping the keys the record has. */
  method BuildDetails(data: Record) returns (details: seq<DetailItem>)
    ensures details == DetailsOf(DetailOrder, data)
  {
    details := [];
    for i := 0 to |DetailOrder|
      invariant details == DetailsOf(DetailOrder[..i], data)
    {
      var key := DetailOrder[i];
      if key.Name() in data {
        details := details + [DetailItem(key, data[key.Name()])];
      }
      assert DetailOrder[..i + 1][..i] == DetailOrder[..i];
    }
    assert DetailOrder[..|DetailOrder|] == DetailOrder;
  }

  /** The promotion list: split, drop blank fragments, then one trimmed item per fragment. */
  method BuildPromotion(data: Record) returns (promotion: Option<seq<string>>)
    ensures promotion == (if HasPromotion(data) then Some(Promotion.Items(data["promotionStrategy"])) else None)
  {
    promotion := None;
    if HasPromotion(data) {
      var strategies := Promotion.NonBlank(Promotion.Split(data["promotionStrategy"]));
      var list := ListItems(strategies);
      promotion := Some(list);
    }
  }

  /** The forEach over the kept fragments: one trimmed list item each, in order. */
  method ListItems(strategies: seq<string>) returns (list: seq<string>)
    ensures list == Promotion.TrimEach(strategies)
  {
    list := [];
    for j := 0 to |strategies|
      invariant list == Promotion.TrimEach(strategies[..j])
    {
      assert strategies[..j + 1] == strategies[..j] + [strategies[j]];
      Promotion.TrimEachSnoc(strategies[..j], strategies[j]);
      list := list + [Promotion.Trim(strategies[j])];
    }
    assert strategies[..|strategies|] == strategies;
  }

  /** The for-in loop over the three financial labels. */
  method BuildFinancials(data: Record) returns (financials: seq<FinancialItem>)
    ensures financials == Financials(data)
  {
    financials := [];
    for i := 0 to |FinancialLabels|
      invariant financials == Financials(data)[..i]
    {
      financials := financials + [FinancialItem(FinancialLabels[i], TemplateText(data, FinancialKeys[i]))];
    }
  }

  /** The output area of the page; displayResult replaces whatever it held. */
  class OutputArea {
    var children: seq<Card>

    constructor ()
      ensures children == []
    {
      children := [];
    }

    /** Clears the area, then appends the card for the record. */
    method DisplayResult(data: Record)
      modifies this
      ensures children == [Render(data)]
    {
      children := [];
      var card := BuildCard(data);
      children := children + [card];
    }
  }

  /** Rendering the same record twice leaves the same single card as rendering it once. */
  method DisplayTwice(area: OutputArea, data: Record)
    modifies area
    ensures area.children == [Render(data)]
  {
    area.DisplayResult(data);
    var once := area.children;
    area.DisplayResult(data);
    assert area.children == once;
  }

  // ------------------------------------------------------------- details

  lemma {:induction false} DetailsOfSound(keys: seq<DetailKey>, data: Record)
    ensures var ds := DetailsOf(keys, data);
      && |ds| <= |keys|
      && (forall i :: 0 <= i < |ds| ==> ds[i].key in keys && ds[i].key.Name() in data)
      && (forall i :: 0 <= i < |ds| ==> ds[i].text == data[ds[i].key.Name()])
  {
    if keys != [] {
      var init := keys[..|keys| - 1];
      DetailsOfSound(init, data);
      var front := DetailsOf(init, data);
      var ds := DetailsOf(keys, data);
      forall i | 0 <= i < |front| ensures ds[i] == front[i] && ds[i].key in keys {
        assert ds[i] == front[i];
        var m :| 0 <= m < |init| && init[m] == front[i].key;
        assert keys[m] == init[m];
      }
    }
  }

  lemma {:induction false} DetailsOfOrdered(keys: seq<DetailKey>, data: Record)
    requires forall i, j :: 0 <= i < j < |keys| ==> keys[i].Ordinal() < keys[j].Ordinal()
    ensures var ds := DetailsOf(keys, data);
      forall i, j :: 0 <= i < j < |ds| ==> ds[i].key.Ordinal() < ds[j].key.Ordinal()
  {
    if keys != [] {
      var init := keys[..|keys| - 1];
      var last := keys[|keys| - 1];
      assert forall i :: 0 <= i < |init| ==> init[i] == keys[i];
      DetailsOfOrdered(init, data);
      DetailsOfSound(init, data);
      var front := DetailsOf(init, data);
      var ds := DetailsOf(keys, data);
      forall i | 0 <= i < |front| ensures front[i].key.Ordinal() < last.Ordinal() {
        var k :| 0 <= k < |init| && init[k] == front[i].key;
        assert keys[k] == front[i].key;
      }
      if last.Name() in data {
        assert ds == front + [DetailItem(last, data[last.Name()])];
        forall i, j | 0 <= i < j < |ds| ensures ds[i].key.Ordinal() < ds[j].key.Ordinal() {
          assert ds[i] == front[i];
          if j < |front| {
            assert ds[j] == front[j];
          } else {
            assert ds[j].key == last;
          }
        }
      } else {
        assert ds == front;
      }
    }
  }

  /** Some entry of ds shows key k. */
  predicate Shows(ds: seq<DetailItem>, k: DetailKey) {
    exists i :: 0 <= i < |ds| && ds[i].key == k
  }

  lemma {:induction false} DetailsOfComplete(keys: seq<DetailKey>, data: Record)
    ensures forall k: DetailKey :: k in keys && k.Name() in data ==> Shows(DetailsOf(keys, data), k)
  {
    if keys != [] {
      var init := keys[..|keys| - 1];
      var last := keys[|keys| - 1];
      DetailsOfComplete(init, data);
      var front := DetailsOf(init, data);
      var ds := DetailsOf(keys, data);
      assert ds == front + (if last.Name() in data then [DetailItem(last, data[last.Name()])] else []);
      forall k: DetailKey | k in keys && k.Name() in data ensures Shows(ds, k) {
        if k == last {
          assert ds[|front|].key == k;
        } else {
          assert k in init by {
            var m :| 0 <= m < |keys| && keys[m] == k;
            assert m < |keys| - 1 && init[m] == k;
          }
          assert Shows(front, k);
          var i :| 0 <= i < |front| && front[i].key == k;
          assert ds[i] == front[i];
        }
      }
    }
  }

  /**
   * The detail entries are exactly those of the seven keys that the record
   * has, in the fixed order, each showing the field's text (its heading is
   * its key's icon and label).
   */
  lemma DetailsExactly(data: Record)
    ensures var ds := Render(data).details;
      && |ds| <= 7
      && (forall i, j :: 0 <= i < j < |ds| ==> ds[i].key.Ordinal() < ds[j].key.Ordinal())
      && (forall i :: 0 <= i < |ds| ==>
            && ds[i].key.Name() in data
            && ds[i].text == data[ds[i].key.Name()])
      && (forall k: DetailKey :: k.Name() in data ==> Shows(ds, k))
  {
    forall k: DetailKey ensures k in DetailOrder {
      assert DetailOrder[k.Ordinal()] == k;
    }
    DetailsOfSound(DetailOrder, data);
    DetailsOfOrdered(DetailOrder, data);
    DetailsOfComplete(DetailOrder, data);
  }

  // ------------------------------------------------------- other sections

  /**
   * The promotion block appears exactly when the field is present and
   * non-empty; its items are trimmed, non-empty, free of delimiters, and at
   * most one more than the delimiters in the text.
   */
  lemma PromotionBlock(data: Record)
    ensures Render(data).promotion.Some? <==> "promotionStrategy" in data && data["promotionStrategy"] != ""
    ensures Render(data).promotion.Some? ==>
      var text := data["promotionStrategy"];
      var items := Render(data).promotion.value;
      && items == Promotion.Items(text)
      && |items| <= |Promotion.Delimiters(text)| + 1
      && (forall i :: 0 <= i < |items| ==>
            items[i] != "" && Promotion.Trimmed(items[i]) && Promotion.NoDelimiter(items[i]))
  {
    if HasPromotion(data) {
      Promotion.ItemsWellFormed(data["promotionStrategy"]);
    }
  }

  /**
   * The financial overview always has three entries, Cost Estimate, Expected
   * Revenue and Net Profit in that order, whatever the record holds.
   */
  lemma FinancialsFixed(data: Record)
    ensures var fs := Render(data).financials;
      && |fs| == 3
      && fs[0] == FinancialItem("Cost Estimate", TemplateText(data, "costEstimate"))
      && fs[1] == FinancialItem("Expected Revenue", TemplateText(data, "expectedRevenue"))
      && fs[2] == FinancialItem("Net Profit", TemplateText(data, "netProfit"))
  {
  }

  /**
   * For a record with every required field: all seven detail entries in
   * order, the record's own financial figures, and a promotion list exactly
   * when the strategy text is non-empty.
   */
  lemma ConformingCard(data: Record)
    requires Conforms(data)
    ensures forall k: DetailKey :: k.Name() in data
    ensures forall i :: 0 <= i < 3 ==> FinancialKeys[i] in data
    ensures "eventName" in data && "promotionStrategy" in data
    ensures var card := Render(data);
      && card.title == data["eventName"]
      && |card.details| == 7
      && (forall i :: 0 <= i < 7 ==>
            && card.details[i].key == DetailOrder[i]
            && card.details[i].text == data[DetailOrder[i].Name()])
      && (forall i :: 0 <= i < 3 ==> card.financials[i].text == data[FinancialKeys[i]])
      && (card.promotion.Some? <==> data["promotionStrategy"] != "")
  {
    assert RequiredKeys[0] == "eventName";
    assert RequiredKeys[5] == "promotionStrategy";
    assert RequiredKeys[6] == "costEstimate" && RequiredKeys[7] == "expectedRevenue" && RequiredKeys[8] == "netProfit";
    forall k: DetailKey ensures k.Name() in data {
      match k
      case DateSuggestion => assert RequiredKeys[1] == k.Name();
      case TargetAudience => assert RequiredKeys[2] == k.Name();
      case GuestCapacity => assert RequiredKeys[9] == k.Name();
      case Entertainment => assert RequiredKeys[3] == k.Name();
      case MenuConcept => assert RequiredKeys[4] == k.Name();
      case EventObjective => assert RequiredKeys[10] == k.Name();
      case SuccessMetrics => assert RequiredKeys[11] == k.Name();
    }
    AllDetailsPresent(DetailOrder, data);
  }

  /** When the record has every key, each key gets its entry, in place. */
  lemma {:induction false} AllDetailsPresent(keys: seq<DetailKey>, data: Record)
    requires forall k: DetailKey :: k.Name() in data
    ensures var ds := DetailsOf(keys, data);
      && |ds| == |keys|
      && (forall i :: 0 <= i < |keys| ==> ds[i].key == keys[i] && ds[i].text == data[keys[i].Name()])
  {
    if keys != [] {
      var init := keys[..|keys| - 1];
      var last := keys[|keys| - 1];
      AllDetailsPresent(init, data);
      var front := DetailsOf(init, data);
      var ds := DetailsOf(keys, data);
      assert ds == front + [DetailItem(last, data[last.Name()])];
      forall i | 0 <= i < |keys| ensures ds[i].key == keys[i] && ds[i].text == data[keys[i].Name()] {
        if i < |init| {
          assert ds[i] == front[i] && init[i] == keys[i];
        }
      }
    }
  }
}
