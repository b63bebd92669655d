/**
 Trimming a page of results to the byte budget (_fit in app/api/resonance_data.py),
 against the size of the JSON text that is finally sent.
 */
module PageFit {
  import opened Decimals
  import opened JsonValues
  import opened Wrappers

  const RESULT_BUDGET_BYTES := 18_000

  /**
   Spaced is json.dumps as it comes: ", " and ": ", and everything beyond ASCII
   escaped. Compact is what the response is written with: "," and ":", in UTF-8.
   */
  datatype Style = Spaced | Compact

  function Separator(style: Style): nat {
    if style.Spaced? then 2 else 1
  }

  function CharSize(c: char, style: Style): nat {
    if c in {'"', '\\', '\n', '\r', '\t', '\U{0008}', '\U{000C}'} then 2
    else if ' ' <= c <= '~' then 1
    else if c < ' ' then 6
    else match style
      case Spaced => if c as int < 0x1_0000 then 6 else 12
      case Compact => if c as int < 0x80 then 1 else if c as int < 0x800 then 2 else if c as int < 0x1_0000 then 3
          else 4
  }

  function Total(sizes: seq<nat>): nat {
    if sizes == [] then 0 else sizes[0] + Total(sizes[1..])
  }

  function TextSize(s: string, style: Style): nat {
    2 + Total(seq(|s|, i requires 0 <= i < |s| => CharSize(s[i], style)))
  }

  /** Separators between `n` things. */
  function Gaps(n: nat, style: Style): nat {
    if n == 0 then 0 else if style.Spaced? then 2 * (n - 1) else n - 1
  }

  /** Bytes of the JSON text of a value. */
  function Size(node: Json, style: Style): nat
    decreases node
  {
    match node
    case Null => 4
    case Bool(b) => if b then 4 else 5
    case Number(text) => |text|
    case Str(s) => TextSize(s, style)
    case List(items) =>
      2 + Total(seq(|items|, i requires 0 <= i < |items| => Size(items[i], style))) + Gaps(|items|, style)
    case Dict(fields) =>
      2 + Total(seq(|fields|, i requires 0 <= i < |fields| =>
                  TextSize(fields[i].key, style) + Separator(style) + Size(fields[i].value, style)))
      + Gaps(|fields|, style)
  }

  // ---- Compact is never larger -------------------------------------------------------------

  lemma {:induction false} TotalMonotone(a: seq<nat>, b: seq<nat>)
    requires |a| == |b| && forall i | 0 <= i < |a| :: a[i] <= b[i]
    ensures Total(a) <= Total(b)
  {
    if a != [] {
      TotalMonotone(a[1..], b[1..]);
    }
  }

  lemma CompactTextIsNoLarger(s: string)
    ensures TextSize(s, Compact) <= TextSize(s, Spaced)
  {
    TotalMonotone(seq(|s|, i requires 0 <= i < |s| => CharSize(s[i], Compact)),
        seq(|s|, i requires 0 <= i < |s| => CharSize(s[i], Spaced)));
  }

  lemma {:induction false} CompactIsNoLarger(node: Json)
    ensures Size(node, Compact) <= Size(node, Spaced)
    decreases node
  {
    match node
    case Str(s) => CompactTextIsNoLarger(s);
    case List(items) =>
      forall i | 0 <= i < |items| ensures Size(items[i], Compact) <= Size(items[i], Spaced) {
        CompactIsNoLarger(items[i]);
      }
      TotalMonotone(seq(|items|, i requires 0 <= i < |items| => Size(items[i], Compact)),
                    seq(|items|, i requires 0 <= i < |items| => Size(items[i], Spaced)));
    case Dict(fields) =>
      forall i | 0 <= i < |fields|
        ensures TextSize(fields[i].key, Compact) + Separator(Compact) + Size(fields[i].value, Compact)
             <= TextSize(fields[i].key, Spaced) + Separator(Spaced) + Size(fields[i].value, Spaced)
      {
        CompactTextIsNoLarger(fields[i].key);
        CompactIsNoLarger(fields[i].value);
      }
      TotalMonotone(
        seq(|fields|, i requires 0 <= i < |fields| =>
          TextSize(fields[i].key, Compact) + Separator(Compact) + Size(fields[i].value, Compact)),
        seq(|fields|, i requires 0 <= i < |fields| =>
          TextSize(fields[i].key, Spaced) + Separator(Spaced) + Size(fields[i].value, Spaced)));
    case _ =>
  }

  // ---- What a change to a dict costs -----------------------------------------------------------

  function FieldSize(f: Field, style: Style): nat {
    TextSize(f.key, style) + Separator(style) + Size(f.value, style)
  }

  function FieldsSize(fields: seq<Field>, style: Style): nat {
    if fields == [] then 0 else FieldSize(fields[0], style) + FieldsSize(fields[1..], style)
  }

  lemma {:induction false} DictSize(fields: seq<Field>, style: Style)
    ensures Total(seq(|fields|, i requires 0 <= i < |fields| =>
                  TextSize(fields[i].key, style) + Separator(style) + Size(fields[i].value, style)))
      == FieldsSize(fields, style)
  {
    if fields != [] {
      var rest := fields[1..];
      DictSize(rest, style);
      assert seq(|fields|, i requires 0 <= i < |fields| =>
               TextSize(fields[i].key, style) + Separator(style) + Size(fields[i].value, style))[1..]
          == seq(|rest|, i requires 0 <= i < |rest| =>
               TextSize(rest[i].key, style) + Separator(style) + Size(rest[i].value, style));
    }
  }

  lemma {:induction false} SetCosts(fields: seq<Field>, key: string, value: Json, style: Style)
    ensures |Set(fields, key, value)| == |fields| + if Get(fields, key).Some? then 0 else 1
    ensures FieldsSize(Set(fields, key, value), style)
         == FieldsSize(fields, style) + match Get(fields, key)
              case Some(was) => Size(value, style) - Size(was, style)
              case None => FieldSize(Field(key, value), style)
  {
    hide Size, TextSize;
    if fields != [] {
      SetCosts(fields[1..], key, value, style);
      var rest := Set(fields[1..], key, value);
      assert ([fields[0]] + rest)[1..] == rest;
      assert ([Field(key, value)] + fields[1..])[1..] == fields[1..];
    }
  }

  lemma {:induction false} CompactFieldsSave(fields: seq<Field>)
    ensures FieldsSize(fields, Compact) + |fields| <= FieldsSize(fields, Spaced)
  {
    hide Size, TextSize;
    if fields != [] {
      CompactTextIsNoLarger(fields[0].key);
      CompactIsNoLarger(fields[0].value);
      CompactFieldsSave(fields[1..]);
    }
  }

  // ---- The page --------------------------------------------------------------------------------------

  function ItemsSize(items: seq<Json>, style: Style): nat {
    if items == [] then 0 else ItemsSize(items[..|items| - 1], style) + Size(items[|items| - 1], style)
  }

  lemma {:induction false} TotalAppend(sizes: seq<nat>, size: nat)
    ensures Total(sizes + [size]) == Total(sizes) + size
  {
    if sizes != [] {
      assert (sizes + [size])[1..] == sizes[1..] + [size];
      TotalAppend(sizes[1..], size);
    }
  }

  lemma {:induction false} ItemsTotal(items: seq<Json>, style: Style)
    ensures Total(seq(|items|, i requires 0 <= i < |items| => Size(items[i], style))) == ItemsSize(items, style)
  {
    if items != [] {
      var last := |items| - 1;
      var rest := items[..last];
      ItemsTotal(rest, style);
      var sizes := seq(|rest|, i requires 0 <= i < |rest| => Size(rest[i], style));
      TotalAppend(sizes, Size(items[last], style));
      assert seq(|items|, i requires 0 <= i < |items| => Size(items[i], style)) == sizes + [Size(items[last], style)];
    }
  }

  lemma {:induction false} CompactItems(items: seq<Json>)
    ensures ItemsSize(items, Compact) <= ItemsSize(items, Spaced)
  {
    if items != [] {
      CompactIsNoLarger(items[|items| - 1]);
      CompactItems(items[..|items| - 1]);
    }
  }

  function Page(payload: seq<Field>, itemsKey: string, items: seq<Json>, returned: nat, truncated: bool): seq<Field> {
    Set(Set(Set(payload, itemsKey, List(items)), "returned", Number(Decimal(returned))), "truncated_for_size",
        Bool(truncated))
  }

  /** The envelope that is priced: no items, but the count of all of them, and `true`. */
  function Envelope(payload: seq<Field>, itemsKey: string, count: nat): seq<Field> {
    Page(payload, itemsKey, [], count, true)
  }

  /** The page that is answered with the first `k` of the items. */
  function Answer(payload: seq<Field>, itemsKey: string, items: seq<Json>, k: nat): seq<Field>
    requires k <= |items|
  {
    Page(payload, itemsKey, items[..k], k, k < |items|)
  }

  /** What the items cost in the budget: each its text and one byte. */
  function Price(items: seq<Json>): nat {
    ItemsSize(items, Spaced) + |items|
  }

  lemma ListSize(items: seq<Json>, style: Style)
    ensures Size(List(items), style) == 2 + ItemsSize(items, style) + Gaps(|items|, style)
  {
    ItemsTotal(items, style);
  }

  lemma DictSizeIs(fields: seq<Field>, style: Style)
    ensures Size(Dict(fields), style) == 2 + FieldsSize(fields, style) + Gaps(|fields|, style)
  {
    DictSize(fields, style);
  }

  /** Two pages over one payload differ by what is in their three fields. */
  lemma PagesDiffer(payload: seq<Field>, itemsKey: string, style: Style,
                    items: seq<Json>, returned: nat, truncated: bool,
                    items': seq<Json>, returned': nat, truncated': bool)
    requires itemsKey != "returned" && itemsKey != "truncated_for_size"
    ensures Size(Dict(Page(payload, itemsKey, items, returned, truncated)), style)
            - Size(List(items), style) - |Decimal(returned)| - (if truncated then 4 else 5)
         == Size(Dict(Page(payload, itemsKey, items', returned', truncated')), style)
            - Size(List(items'), style) - |Decimal(returned')| - (if truncated' then 4 else 5)
  {
    var r, t := "returned", "truncated_for_size";
    PageSum(payload, itemsKey, style, items, returned, truncated);
    PageSum(payload, itemsKey, style, items', returned', truncated');
  }

  /** What a payload costs without the three fields, which the page will have. */
  function Shell(payload: seq<Field>, itemsKey: string, style: Style): int {
    FieldsSize(payload, style)
    + Slot(payload, itemsKey, style) + Slot(payload, "returned", style) + Slot(payload, "truncated_for_size", style)
    + Gaps(|payload| + Missing(payload, itemsKey) + Missing(payload, "returned")
        + Missing(payload, "truncated_for_size"), style)
  }

  function Missing(payload: seq<Field>, key: string): nat {
    if Get(payload, key).Some? then 0 else 1
  }

  function Slot(payload: seq<Field>, key: string, style: Style): int {
    match Get(payload, key)
    case Some(was) => 0 - Size(was, style)
    case None => TextSize(key, style) + Separator(style)
  }

  lemma PageSum(payload: seq<Field>, itemsKey: string, style: Style, items: seq<Json>, returned: nat, truncated: bool)
    requires itemsKey != "returned" && itemsKey != "truncated_for_size"
    ensures Size(Dict(Page(payload, itemsKey, items, returned, truncated)), style)
         == 2 + Shell(payload, itemsKey, style) + Size(List(items), style) + |Decimal(returned)|
             + (if truncated then 4 else 5)
  {
    var r, t := "returned", "truncated_for_size";
    var one := Set(payload, itemsKey, List(items));
    var two := Set(one, r, Number(Decimal(returned)));
    var three := Set(two, t, Bool(truncated));
    SetCosts(payload, itemsKey, List(items), style);
    GetSet(payload, itemsKey, List(items), r);
    GetSet(payload, itemsKey, List(items), t);
    SetCosts(one, r, Number(Decimal(returned)), style);
    GetSet(one, r, Number(Decimal(returned)), t);
    SetCosts(two, t, Bool(truncated), style);
    DictSizeIs(three, style);
    LeafSizes(Decimal(returned), truncated, style);
    hide Size, TextSize, Get, Set, FieldsSize;
  }

  lemma LeafSizes(text: string, b: bool, style: Style)
    ensures Size(Number(text), style) == |text|
    ensures Size(Bool(b), style) == if b then 4 else 5
  {}

  /** The finished page against the envelope that was priced, byte for byte. */
  lemma AnswerSize(payload: seq<Field>, itemsKey: string, items: seq<Json>, k: nat, style: Style)
    requires itemsKey != "returned" && itemsKey != "truncated_for_size" && k <= |items|
    ensures Size(Dict(Answer(payload, itemsKey, items, k)), style)
         == Size(Dict(Envelope(payload, itemsKey, |items|)), style)
            + ItemsSize(items[..k], style) + Gaps(k, style)
            + |Decimal(k)| - |Decimal(|items|)| + (if k < |items| then 0 else 1)
  {
    PagesDiffer(payload, itemsKey, style, items[..k], k, k < |items|, [], |items|, true);
    ListSize(items[..k], style);
    ListSize([], style);
  }

  // ---- The cut ---------------------------------------------------------------------------------------------

  predicate Kept(items: seq<Json>, budget: int, k: nat) {
    && k <= |items|
    && (items != [] ==> k >= 1)
    && (k > 1 ==> Price(items[..k]) <= budget)
    && (k < |items| ==> Price(items[..k + 1]) > budget)
  }

  lemma {:induction false} PriceGrows(items: seq<Json>, j: nat, k: nat)
    requires j <= k <= |items|
    ensures Price(items[..j]) <= Price(items[..k])
  {
    if j < k {
      PriceGrows(items, j, k - 1);
      assert items[..k][..k - 1] == items[..k - 1];
    }
  }

  /** A prefix is within the one kept exactly when it is the first item alone, or is priced within the budget. */
  lemma KeepsTheLongestPrefix(items: seq<Json>, budget: int, k: nat, j: nat)
    requires Kept(items, budget, k) && 0 < j <= |items|
    ensures j <= k <==> j == 1 || Price(items[..j]) <= budget
  {
    if j <= k {
      PriceGrows(items, j, k);
    } else {
      PriceGrows(items, k + 1, j);
    }
  }

  method Fit(payload: seq<Field>, itemsKey: string) returns (page: seq<Field>, ghost k: nat)
    ensures var items := Items(payload, itemsKey);
            && Kept(items, RESULT_BUDGET_BYTES - Size(Dict(Envelope(payload, itemsKey, |items|)), Spaced), k)
            && page == Answer(payload, itemsKey, items, k)
    ensures var items := match Get(payload, itemsKey) { case Some(List(items)) => items case _ => [] };
            itemsKey !in {"returned", "truncated_for_size"} ==>
              && k <= |items| && Get(page, itemsKey) == Some(List(items[..k]))
              && Get(page, "returned") == Some(Number(Decimal(k)))
              && Get(page, "truncated_for_size") == Some(Bool(k < |items|))
              && (forall key | key !in {itemsKey, "returned", "truncated_for_size"} ::
                 Get(page, key) == Get(payload, key))
  {
    var items := Items(payload, itemsKey);
    var envelope := Envelope(payload, itemsKey, |items|);
    var budget := RESULT_BUDGET_BYTES - Size(Dict(envelope), Spaced);
    var kept, used := [], 0;
    for i := 0 to |items|
      invariant kept == items[..i] && used == Price(kept)
      invariant i > 1 ==> used <= budget
    {
      var size := Size(items[i], Spaced) + 1;
      assert items[..i + 1][..i] == items[..i];
      if kept != [] && used + size > budget {
        break;
      }
      kept := kept + [items[i]];
      used := used + size;
    }
    k := |kept|;
    page := Page(payload, itemsKey, kept, |kept|, |kept| < |items|);
    if itemsKey !in {"returned", "truncated_for_size"} {
      PageSays(payload, itemsKey, kept, |kept|, |kept| < |items|);
    }
  }

  /** What a page says under its three keys, and that the rest of the payload stays. */
  lemma PageSays(payload: seq<Field>, itemsKey: string, items: seq<Json>, returned: nat, truncated: bool)
    requires itemsKey !in {"returned", "truncated_for_size"}
    ensures var page := Page(payload, itemsKey, items, returned, truncated);
            && Get(page, itemsKey) == Some(List(items))
            && Get(page, "returned") == Some(Number(Decimal(returned)))
            && Get(page, "truncated_for_size") == Some(Bool(truncated))
            && (forall key | key !in {itemsKey, "returned", "truncated_for_size"} ::
               Get(page, key) == Get(payload, key))
  {
    var one := Set(payload, itemsKey, List(items));
    var two := Set(one, "returned", Number(Decimal(returned)));
    forall key
      ensures Get(one, key) == (if key == itemsKey then Some(List(items)) else Get(payload, key))
      ensures Get(two, key) == if key == "returned" then Some(Number(Decimal(returned))) else Get(one, key)
      ensures Get(Page(payload, itemsKey, items, returned, truncated), key)
           == if key == "truncated_for_size" then Some(Bool(truncated)) else Get(two, key)
    {
      GetSet(payload, itemsKey, List(items), key);
      GetSet(one, "returned", Number(Decimal(returned)), key);
      GetSet(two, "truncated_for_size", Bool(truncated), key);
    }
    hide Get, Set, Decimal;
  }

  function Items(payload: seq<Field>, itemsKey: string): seq<Json> {
    match Get(payload, itemsKey)
    case Some(List(items)) => items
    case _ => []
  }

  /**
   As it is sent, the page keeps within the budget, unless its one item is too
   big, or there is no item and the rest is. The byte by which `false` exceeds the
   `true` that was priced comes out of the separator the last item does not need.
   */
  lemma SentPageFits(payload: seq<Field>, itemsKey: string, items: seq<Json>, k: nat)
    requires itemsKey != "returned" && itemsKey != "truncated_for_size"
    requires Kept(items, RESULT_BUDGET_BYTES - Size(Dict(Envelope(payload, itemsKey, |items|)), Spaced), k)
    ensures Size(Dict(Answer(payload, itemsKey, items, k)), Compact) <= 18_000
            || (k == 1
                && Price(items[..1]) > RESULT_BUDGET_BYTES - Size(Dict(Envelope(payload, itemsKey, |items|)), Spaced))
            || (items == [] && Size(Dict(Envelope(payload, itemsKey, 0)), Spaced) > RESULT_BUDGET_BYTES)
  {
    hide Size, Decimal;
    var envelope := Envelope(payload, itemsKey, |items|);
    AnswerSize(payload, itemsKey, items, k, Compact);
    DictSizeIs(envelope, Compact);
    DictSizeIs(envelope, Spaced);
    CompactFieldsSave(envelope);
    CompactItems(items[..k]);
    DecimalMonotone(k, |items|);
    PageHasFields(payload, itemsKey, [], |items|, true);
  }

  lemma PageHasFields(payload: seq<Field>, itemsKey: string, items: seq<Json>, returned: nat, truncated: bool)
    ensures Page(payload, itemsKey, items, returned, truncated) != []
  {}

  /**
   Written with the spacing it is priced with, the page fits exactly when the
   items leave room for the second byte of each separator, which nothing priced.
   */
  lemma PricedSpacingFitsWhen(payload: seq<Field>, itemsKey: string, items: seq<Json>, k: nat)
    requires itemsKey != "returned" && itemsKey != "truncated_for_size" && 0 < k <= |items|
    ensures Size(Dict(Answer(payload, itemsKey, items, k)), Spaced) <= RESULT_BUDGET_BYTES
            <==> Price(items[..k]) + k - 2 - (|Decimal(|items|)| - |Decimal(k)|) + (if k < |items| then 0 else 1)
                 <= RESULT_BUDGET_BYTES - Size(Dict(Envelope(payload, itemsKey, |items|)), Spaced)
  {
    hide Size, Decimal;
    AnswerSize(payload, itemsKey, items, k, Spaced);
  }

  // ---- A page that is too long as it is priced -------------------------------------------------

  function Zeros(n: nat): (zeros: seq<Json>)
    ensures |zeros| == n && forall i | 0 <= i < n :: zeros[i] == Number("0")
  {
    seq(n, _ => Number("0"))
  }

  lemma {:induction false} ZerosSize(n: nat, style: Style)
    ensures ItemsSize(Zeros(n), style) == n
  {
    if n > 0 {
      ZerosSize(n - 1, style);
      assert Zeros(n)[..n - 1] == Zeros(n - 1);
      assert Size(Number("0"), style) == 1;
    }
  }

  lemma {:induction false} TotalAtMost(sizes: seq<nat>, each: nat)
    requires forall i | 0 <= i < |sizes| :: sizes[i] <= each
    ensures Total(sizes) <= each * |sizes|
  {
    if sizes != [] {
      TotalAtMost(sizes[1..], each);
    }
  }

  lemma TextAtMost(s: string, style: Style)
    ensures 2 <= TextSize(s, style) <= 2 + 12 * |s|
  {
    TotalAtMost(seq(|s|, i requires 0 <= i < |s| => CharSize(s[i], style)), 12);
  }

  /** What a list under "records" and nothing else is priced at, without its items. */
  lemma BareEnvelope(items: seq<Json>)
    ensures Size(Dict(Envelope([Field("records", List(items))], "records", |items|)), Spaced)
              <= 420 + |Decimal(|items|)|
  {
    var payload := [Field("records", List(items))];
    hide Size, Set, TextSize;
    assert |"records"| == 7 && |"returned"| == 8 && |"truncated_for_size"| == 18;
    PageSum(payload, "records", Spaced, [], |items|, true);
    ListSize([], Spaced);
    assert payload[1..] == [];
    TextAtMost("records", Spaced);
    TextAtMost("returned", Spaced);
    TextAtMost("truncated_for_size", Spaced);
    assert FieldsSize(payload, Spaced) == FieldSize(payload[0], Spaced) + FieldsSize([], Spaced);
  }

  /** How far the loop gets when every item is a zero. */
  lemma ZerosKept(n: nat, budget: int, k: nat)
    requires Kept(Zeros(n), budget, k) && n >= 1
    ensures 1 <= k <= n && (k > 1 ==> 2 * k <= budget) && (k < n ==> 2 * k + 2 > budget)
              && Price(Zeros(n)[..k]) == 2 * k
  {
    hide Size, ItemsSize;
    assert Zeros(n)[..k] == Zeros(k);
    ZerosSize(k, Spaced);
    if k < n {
      assert Zeros(n)[..k + 1] == Zeros(k + 1);
      ZerosSize(k + 1, Spaced);
    }
  }

  /** 9000 zeros under "records" are cut to a page whose spaced text is larger than the budget. */
  lemma SpacedPageCanExceedTheBudget(k: nat)
    requires var items := Zeros(9000);
             var payload := [Field("records", List(items))];
             Kept(items, RESULT_BUDGET_BYTES - Size(Dict(Envelope(payload, "records", |items|)), Spaced), k)
    ensures var items := Zeros(9000);
            Size(Dict(Answer([Field("records", List(items))], "records", items, k)), Spaced) > RESULT_BUDGET_BYTES
  {
    hide Size, Decimal, Kept, Zeros, Price, Envelope, Answer;
    var items := Zeros(9000);
    var payload := [Field("records", List(items))];
    ZerosKept(9000, RESULT_BUDGET_BYTES - Size(Dict(Envelope(payload, "records", 9000)), Spaced), k);
    BareEnvelope(items);
    assert Power10(4) == 10_000;
    DecimalValue(9000, 4);
    PricedSpacingFitsWhen(payload, "records", items, k);
  }
}
