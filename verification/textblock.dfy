/** `buildPropertiesTextBlock`: the human-readable block that describes every
    property of a multiple-properties submission, and a reader for it that recovers
    each property's printed fields.

    The layout is defined for any label table `lab`; the block the form sends uses
    `Label`. Stating the layout over a table keeps the proofs about the layout apart
    from the facts about the twenty-three label texts (`LabelsFitLabel`). */
module TextBlock {
  import opened Options
  import opened Text
  import opened Properties

  const Header: string := "Collateral / Property Information:"
  /** Each field line opens with three spaces, a dash and a space. */
  const Bullet: string := "   - "
  /** U+2022 BULLET, a space, and the words "Property #". */
  const TitlePrefix: string := "\U{2022} Property #"

  /** The label a field is printed under (not the form's own field labels). */
  function Label(k: PropertyKey): string
  {
    match k
    case PropertyAddress => "Property Address"
    case PropertyType => "Property Type"
    case StructureSize => "Square Footage / Units / Beds"
    case YearBuiltCondition => "Year Built / Condition"
    case PurchasePrice => "Purchase Price (USD)"
    case CurrentValue => "Current Value (USD)"
    case RenovationScope => "Renovation Scope"
    case CapexBudget => "CapEx Budget (USD)"
    case OccupancyStatus => "Occupancy Status"
    case OccupancyPct => "Occupancy Percentage (%)"
    case CurrentManagement => "Current Management"
    case CurrentNoi => "Current NOI (annual, USD)"
    case T12Noi => "T12 NOI (annual, USD)"
    case GrossMonthlyRent => "Gross Monthly Rent (USD)"
    case VacancyPct => "Vacancy Percentage (%)"
    case ProjectedNoi => "Projected NOI (annual, USD)"
    case StabilizedDscr => "Stabilized DSCR (if known)"
    case DscrAnnualTaxes => "Annual Property Taxes (USD)"
    case DscrAnnualInsurance => "Annual Insurance (USD)"
    case DscrRecurringFees => "Recurring Fees (USD)"
    case BridgeArv => "Estimated ARV (USD)"
    case BridgeTimeline => "Timeline"
    case BridgeExitStrategy => "Exit Strategy"
  }

  /** A label table the block can be read back under: no label holds a colon or a
      line break, and no two fields share a label. */
  predicate LabelsFit(lab: PropertyKey -> string)
  {
    (forall k :: ':' !in lab(k) && '\n' !in lab(k))
    && (forall a, b :: lab(a) == lab(b) ==> a == b)
  }

  /** The seventeen fields printed for every loan type, in print order; unlike the
      form's field list this one includes `vacancy_pct`. */
  const BlockFields: seq<PropertyKey> := [
    PropertyAddress, PropertyType, StructureSize, YearBuiltCondition,
    PurchasePrice, CurrentValue, RenovationScope, CapexBudget,
    OccupancyStatus, OccupancyPct, CurrentManagement,
    CurrentNoi, T12Noi, GrossMonthlyRent, VacancyPct, ProjectedNoi, StabilizedDscr]

  /** The fields printed for a loan type, in print order: the DSCR trio only for a
      DSCR loan and the bridge trio only for a bridge loan. */
  function PrintOrder(code: LoanCode): (r: seq<PropertyKey>)
    ensures forall i :: 0 <= i < |r| && CategoryOf(r[i]) == DscrOnly ==> code == DSCR
    ensures forall i :: 0 <= i < |r| && CategoryOf(r[i]) == BridgeOnly ==> code == BRIDGE
  {
    BlockFields
      + (if code == DSCR then DscrFields else [])
      + (if code == BRIDGE then BridgeFields else [])
  }

  /** The block prints exactly the fields the form offers for the loan type, plus
      `vacancy_pct`, which the form never offers: each reserved trio is printed for
      its own loan type and for no other. */
  lemma PrintOrderAgrees(code: LoanCode, k: PropertyKey)
    ensures k in PrintOrder(code) <==> k in PropertyFieldList(Some(code)) || k == VacancyPct
  {
    BlockFieldsAreBase(k);
    assert k in PrintOrder(code) <==>
             k in BlockFields || (code == DSCR && k in DscrFields) || (code == BRIDGE && k in BridgeFields);
  }

  /** The fields printed for every loan type are the form's base fields and `vacancy_pct`. */
  lemma BlockFieldsAreBase(k: PropertyKey)
    ensures k in BlockFields <==> k in BaseFields || k == VacancyPct
  {
  }

  /** One field line. */
  function Line(lab: PropertyKey -> string, k: PropertyKey, v: string): string
  {
    Bullet + lab(k) + ": " + v
  }

  /** The title line of the `n`-th property (counted from 1). */
  function Title(n: nat): string
  {
    TitlePrefix + NatToString(n)
  }

  /** The lines for the fields `ks` of `p`, skipping every field whose value is unset
      or empty. */
  function FieldLines(lab: PropertyKey -> string, ks: seq<PropertyKey>, p: Property): (r: seq<string>)
    ensures |r| <= |ks|
  {
    if |ks| == 0 then []
    else
      (if Value(p, ks[0]) != "" then [Line(lab, ks[0], Value(p, ks[0]))] else [])
      + FieldLines(lab, ks[1..], p)
  }

  /** The section of one property: its title, then its field lines. */
  function Section(lab: PropertyKey -> string, code: LoanCode, p: Property, n: nat): string
  {
    JoinLines([Title(n)] + FieldLines(lab, PrintOrder(code), p))
  }

  /** The sections of `props`, the first one numbered `n`. */
  function Sections(lab: PropertyKey -> string, code: LoanCode, props: seq<Property>, n: nat): (r: seq<string>)
    ensures |r| == |props|
    ensures forall i :: 0 <= i < |props| ==> r[i] == Section(lab, code, props[i], n + i)
  {
    if |props| == 0 then [] else [Section(lab, code, props[0], n)] + Sections(lab, code, props[1..], n + 1)
  }

  /** The block under the label table `lab`: nothing for no properties; otherwise the
      header, one section per property numbered from 1, and a final newline. */
  function Block(lab: PropertyKey -> string, code: LoanCode, props: seq<Property>): (r: string)
    ensures |props| == 0 <==> r == ""
    ensures |props| > 0 ==> StartsWith(r, Header + "\n") && r[|r| - 1] == '\n'
  {
    if |props| == 0 then ""
    else
      var secs := Sections(lab, code, props, 1);
      JoinAppend([Header], secs + [""]);
      JoinAppend(secs, [""]);
      assert ([Header] + secs + [""]) == [Header] + (secs + [""]);
      assert (Header + "\n" + JoinLines(secs + [""]))[..|Header + "\n"|] == Header + "\n";
      JoinLines([Header] + secs + [""])
  }

  /** `buildPropertiesTextBlock(loanCode, props)`. */
  function BuildPropertiesTextBlock(code: LoanCode, props: seq<Property>): (r: string)
    ensures |props| == 0 <==> r == ""
    ensures |props| > 0 ==> StartsWith(r, Header + "\n") && r[|r| - 1] == '\n'
  {
    Block(Label, code, props)
  }

  // ---- the block as one flat list of lines ----

  /** The lines of the sections of `props`, the first numbered `n`, without the
      per-section joins. */
  function FlatLines(lab: PropertyKey -> string, code: LoanCode, props: seq<Property>, n: nat): seq<string>
  {
    if |props| == 0 then []
    else [Title(n)] + FieldLines(lab, PrintOrder(code), props[0]) + FlatLines(lab, code, props[1..], n + 1)
  }

  /** Joining each section first and then the sections gives the same text as joining
      all the lines at once. */
  lemma {:induction false} FlattenSections(lab: PropertyKey -> string, code: LoanCode, props: seq<Property>, n: nat)
    ensures JoinLines(Sections(lab, code, props, n) + [""]) == JoinLines(FlatLines(lab, code, props, n) + [""])
  {
    if |props| > 0 {
      var sec := [Title(n)] + FieldLines(lab, PrintOrder(code), props[0]);
      var rest := Sections(lab, code, props[1..], n + 1);
      var flatRest := FlatLines(lab, code, props[1..], n + 1);
      FlattenSections(lab, code, props[1..], n + 1);
      SectionsTail(lab, code, props, n);
      JoinAppend([JoinLines(sec)], rest + [""]);
      FlatTail(lab, code, props, n);
      JoinAppend(sec, flatRest + [""]);
    }
  }

  lemma SectionsTail(lab: PropertyKey -> string, code: LoanCode, props: seq<Property>, n: nat)
    requires |props| > 0
    ensures Sections(lab, code, props, n) + [""]
         == [JoinLines([Title(n)] + FieldLines(lab, PrintOrder(code), props[0]))]
            + (Sections(lab, code, props[1..], n + 1) + [""])
  {
  }

  lemma FlatTail(lab: PropertyKey -> string, code: LoanCode, props: seq<Property>, n: nat)
    requires |props| > 0
    ensures FlatLines(lab, code, props, n) + [""]
         == [Title(n)] + FieldLines(lab, PrintOrder(code), props[0])
            + (FlatLines(lab, code, props[1..], n + 1) + [""])
  {
    FlatLinesCons(lab, code, props, n);
  }

  /** The block is the header, the flat lines and an empty last line, joined. */
  lemma BlockIsFlat(lab: PropertyKey -> string, code: LoanCode, props: seq<Property>)
    requires |props| > 0
    ensures Block(lab, code, props) == JoinLines([Header] + FlatLines(lab, code, props, 1) + [""])
  {
    var secs := Sections(lab, code, props, 1);
    var flat := FlatLines(lab, code, props, 1);
    FlattenSections(lab, code, props, 1);
    assert [Header] + secs + [""] == [Header] + (secs + [""]);
    assert [Header] + flat + [""] == [Header] + (flat + [""]);
    JoinAppend([Header], secs + [""]);
    JoinAppend([Header], flat + [""]);
  }

  // ---- reading the block back ----

  /** The position of the first ':' in `s`, or `|s|` when there is none. */
  function ColonIndex(s: string): (i: nat)
    ensures i <= |s|
    ensures forall j :: 0 <= j < i ==> s[j] != ':'
    ensures i < |s| ==> s[i] == ':'
  {
    if |s| == 0 || s[0] == ':' then 0 else 1 + ColonIndex(s[1..])
  }

  lemma ColonIndexAfter(a: string, b: string)
    requires ':' !in a
    requires |b| > 0 && b[0] == ':'
    ensures ColonIndex(a + b) == |a|
  {
    var s := a + b;
    var i := ColonIndex(s);
    assert s[|a|] == ':';
    assert forall j :: 0 <= j < |a| ==> s[j] == a[j];
  }

  const AllKeys: seq<PropertyKey> := BlockFields + DscrFields + BridgeFields

  lemma AllKeysComplete(k: PropertyKey)
    ensures k in AllKeys
  {
    var i :=
      match k
      case PropertyAddress => 0
      case PropertyType => 1
      case StructureSize => 2
      case YearBuiltCondition => 3
      case PurchasePrice => 4
      case CurrentValue => 5
      case RenovationScope => 6
      case CapexBudget => 7
      case OccupancyStatus => 8
      case OccupancyPct => 9
      case CurrentManagement => 10
      case CurrentNoi => 11
      case T12Noi => 12
      case GrossMonthlyRent => 13
      case VacancyPct => 14
      case ProjectedNoi => 15
      case StabilizedDscr => 16
      case DscrAnnualTaxes => 17
      case DscrAnnualInsurance => 18
      case DscrRecurringFees => 19
      case BridgeArv => 20
      case BridgeTimeline => 21
      case BridgeExitStrategy => 22;
    assert AllKeys[i] == k;
  }

  /** The field printed under `name`, if any. */
  function KeyOfLabel(lab: PropertyKey -> string, name: string): (r: Option<PropertyKey>)
    ensures r.Some? ==> lab(r.value) == name
  {
    FindLabel(lab, name, AllKeys)
  }

  function FindLabel(lab: PropertyKey -> string, name: string, ks: seq<PropertyKey>): (r: Option<PropertyKey>)
    ensures r.Some? ==> lab(r.value) == name
    ensures r.None? ==> forall i :: 0 <= i < |ks| ==> lab(ks[i]) != name
  {
    if |ks| == 0 then None
    else if lab(ks[0]) == name then Some(ks[0])
    else FindLabel(lab, name, ks[1..])
  }

  lemma KeyOfLabelOf(lab: PropertyKey -> string, k: PropertyKey)
    requires LabelsFit(lab)
    ensures KeyOfLabel(lab, lab(k)) == Some(k)
  {
    AllKeysComplete(k);
    var i :| 0 <= i < |AllKeys| && AllKeys[i] == k;
    assert lab(AllKeys[i]) == lab(k);
  }

  /** A field line read back: the field it names and the value after ": ". */
  function ParseLine(lab: PropertyKey -> string, line: string): (r: Option<(PropertyKey, string)>)
    ensures r.Some? ==> Line(lab, r.value.0, r.value.1) == line
  {
    if !StartsWith(line, Bullet) then None
    else
      var rest := line[|Bullet|..];
      var i := ColonIndex(rest);
      if i + 1 < |rest| && rest[i + 1] == ' ' then
        match KeyOfLabel(lab, rest[..i])
        case Some(k) =>
          assert rest == rest[..i] + ": " + rest[i + 2..];
          assert line == Bullet + rest;
          Some((k, rest[i + 2..]))
        case None => None
      else None
  }

  lemma ParseLineOf(lab: PropertyKey -> string, k: PropertyKey, v: string)
    requires LabelsFit(lab)
    ensures ParseLine(lab, Line(lab, k, v)) == Some((k, v))
  {
    var line := Line(lab, k, v);
    assert line == Bullet + (lab(k) + (": " + v));
    assert line[..|Bullet|] == Bullet;
    var rest := line[|Bullet|..];
    assert rest == lab(k) + (": " + v);
    ColonIndexAfter(lab(k), ": " + v);
    assert rest[..|lab(k)|] == lab(k);
    assert rest[|lab(k)| + 2..] == v;
    KeyOfLabelOf(lab, k);
  }

  /** The fields named by a run of field lines. */
  function DecodeFields(lab: PropertyKey -> string, lines: seq<string>): Option<map<PropertyKey, string>>
  {
    if |lines| == 0 then Some(map[])
    else
      match ParseLine(lab, lines[0])
      case None => None
      case Some(kv) =>
        match DecodeFields(lab, lines[1..])
        case None => None
        case Some(m) => Some(m[kv.0 := kv.1])
  }

  /** The number of field lines at the head of `lines`. */
  function FieldRun(lines: seq<string>): (n: nat)
    ensures n <= |lines|
    ensures forall i :: 0 <= i < n ==> StartsWith(lines[i], Bullet)
    ensures n < |lines| ==> !StartsWith(lines[n], Bullet)
  {
    if |lines| == 0 || !StartsWith(lines[0], Bullet) then 0 else 1 + FieldRun(lines[1..])
  }

  /** Sections read back, the first expected to be titled `n`. */
  function DecodeSections(lab: PropertyKey -> string, lines: seq<string>, n: nat): Option<seq<map<PropertyKey, string>>>
    decreases |lines|
  {
    if |lines| == 0 then Some([])
    else if lines[0] != Title(n) then None
    else
      var run := FieldRun(lines[1..]);
      match DecodeFields(lab, lines[1..][..run])
      case None => None
      case Some(fields) =>
        match DecodeSections(lab, lines[1 + run..], n + 1)
        case None => None
        case Some(more) => Some([fields] + more)
  }

  /** The reader of the block under `lab`: the empty text is no properties;
      otherwise the header, then the numbered sections, then the final newline. */
  function Decode(lab: PropertyKey -> string, text: string): Option<seq<map<PropertyKey, string>>>
  {
    if text == "" then Some([])
    else
      var lines := Split(text);
      if |lines| >= 2 && lines[0] == Header && lines[|lines| - 1] == "" then
        DecodeSections(lab, lines[1..|lines| - 1], 1)
      else None
  }

  /** The reader of the block the form sends. */
  function DecodePropertiesTextBlock(text: string): Option<seq<map<PropertyKey, string>>>
  {
    Decode(Label, text)
  }

  // ---- what the block carries ----

  /** The printed fields of `p` among `ks`: every field of `ks` with a non-empty value. */
  function Printed(ks: seq<PropertyKey>, p: Property): (m: map<PropertyKey, string>)
    ensures forall k :: k in m <==> k in ks && Value(p, k) != ""
    ensures forall k :: k in m ==> m[k] == Value(p, k)
  {
    if |ks| == 0 then map[]
    else if Value(p, ks[0]) != "" then Printed(ks[1..], p)[ks[0] := Value(p, ks[0])]
    else Printed(ks[1..], p)
  }

  /** What a reader of the block learns about each property: the fields printed for
      the loan type that the property has filled in. */
  function Visible(code: LoanCode, props: seq<Property>): (r: seq<map<PropertyKey, string>>)
    ensures |r| == |props|
    ensures forall i :: 0 <= i < |props| ==> r[i] == Printed(PrintOrder(code), props[i])
  {
    if |props| == 0 then [] else [Printed(PrintOrder(code), props[0])] + Visible(code, props[1..])
  }

  /** No value the block prints holds a line break. */
  predicate SingleLineValues(props: seq<Property>)
  {
    forall i, k :: 0 <= i < |props| ==> '\n' !in Value(props[i], k)
  }

  lemma {:induction false} DecodeFieldLines(lab: PropertyKey -> string, ks: seq<PropertyKey>, p: Property)
    requires LabelsFit(lab)
    ensures DecodeFields(lab, FieldLines(lab, ks, p)) == Some(Printed(ks, p))
  {
    if |ks| > 0 {
      DecodeFieldLines(lab, ks[1..], p);
      var v := Value(p, ks[0]);
      if v != "" {
        var lines := FieldLines(lab, ks, p);
        assert lines[0] == Line(lab, ks[0], v);
        assert lines[1..] == FieldLines(lab, ks[1..], p);
        ParseLineOf(lab, ks[0], v);
      } else {
        assert FieldLines(lab, ks, p) == FieldLines(lab, ks[1..], p);
      }
    }
  }

  lemma TitleNotField(n: nat)
    ensures !StartsWith(Title(n), Bullet)
  {
    assert Title(n)[0] == '\U{2022}';
  }

  lemma {:induction false} FieldRunOf(lab: PropertyKey -> string, ks: seq<PropertyKey>, p: Property, rest: seq<string>)
    requires |rest| == 0 || !StartsWith(rest[0], Bullet)
    ensures FieldRun(FieldLines(lab, ks, p) + rest) == |FieldLines(lab, ks, p)|
  {
    if |ks| > 0 {
      FieldRunOf(lab, ks[1..], p, rest);
      var v := Value(p, ks[0]);
      if v != "" {
        var lines := FieldLines(lab, ks, p) + rest;
        assert lines[0] == Bullet + (lab(ks[0]) + ": " + v);
        assert lines[1..] == FieldLines(lab, ks[1..], p) + rest;
      } else {
        assert FieldLines(lab, ks, p) == FieldLines(lab, ks[1..], p);
      }
    }
  }

  /** One section read back: its title, its run of field lines, then the rest. */
  lemma DecodeSectionStep(lab: PropertyKey -> string, n: nat, fields: seq<string>, rest: seq<string>, m: map<PropertyKey, string>)
    requires FieldRun(fields + rest) == |fields|
    requires DecodeFields(lab, fields) == Some(m)
    ensures DecodeSections(lab, [Title(n)] + (fields + rest), n)
         == match DecodeSections(lab, rest, n + 1)
            case None => None
            case Some(more) => Some([m] + more)
  {
    var lines := [Title(n)] + (fields + rest);
    assert lines[1..] == fields + rest;
    assert lines[1..][..|fields|] == fields;
    assert lines[1 + |fields|..] == rest;
  }

  lemma {:induction false} DecodeFlat(lab: PropertyKey -> string, code: LoanCode, props: seq<Property>, n: nat)
    requires LabelsFit(lab)
    ensures DecodeSections(lab, FlatLines(lab, code, props, n), n) == Some(Visible(code, props))
    decreases |props|
  {
    if |props| > 0 {
      DecodeFlat(lab, code, props[1..], n + 1);
      DecodeFlatStep(lab, code, props, n);
    }
  }

  /** The first property's section, as lines: its title, then its field lines. */
  lemma FlatLinesCons(lab: PropertyKey -> string, code: LoanCode, props: seq<Property>, n: nat)
    requires |props| > 0
    ensures FlatLines(lab, code, props, n)
            == [Title(n)] + (FieldLines(lab, PrintOrder(code), props[0]) + FlatLines(lab, code, props[1..], n + 1))
  {
  }

  /** The reader takes the first section's field lines whole: what follows them is
      the next title or nothing. */
  lemma FirstRun(lab: PropertyKey -> string, code: LoanCode, props: seq<Property>, n: nat)
    requires |props| > 0
    ensures var fields := FieldLines(lab, PrintOrder(code), props[0]);
            FieldRun(fields + FlatLines(lab, code, props[1..], n + 1)) == |fields|
  {
    var rest := FlatLines(lab, code, props[1..], n + 1);
    if |props| > 1 {
      FlatLinesCons(lab, code, props[1..], n + 1);
      TitleNotField(n + 1);
    }
    FieldRunOf(lab, PrintOrder(code), props[0], rest);
  }

  /** One section of `DecodeFlat`: the first property's section is read back and the
      reader carries on with the next number. */
  lemma DecodeFlatStep(lab: PropertyKey -> string, code: LoanCode, props: seq<Property>, n: nat)
    requires LabelsFit(lab) && |props| > 0
    requires DecodeSections(lab, FlatLines(lab, code, props[1..], n + 1), n + 1) == Some(Visible(code, props[1..]))
    ensures DecodeSections(lab, FlatLines(lab, code, props, n), n) == Some(Visible(code, props))
  {
    var m := Printed(PrintOrder(code), props[0]);
    FlatLinesCons(lab, code, props, n);
    FirstRun(lab, code, props, n);
    DecodeFieldLines(lab, PrintOrder(code), props[0]);
    DecodeSectionStep(lab, n, FieldLines(lab, PrintOrder(code), props[0]), FlatLines(lab, code, props[1..], n + 1), m);
    assert Visible(code, props) == [m] + Visible(code, props[1..]);
  }

  lemma {:induction false} FieldLinesNoNewline(lab: PropertyKey -> string, ks: seq<PropertyKey>, p: Property)
    requires LabelsFit(lab)
    requires forall k :: '\n' !in Value(p, k)
    ensures NoNewline(FieldLines(lab, ks, p))
  {
    if |ks| > 0 {
      FieldLinesNoNewline(lab, ks[1..], p);
      var v := Value(p, ks[0]);
      assert Line(lab, ks[0], v) == Bullet + lab(ks[0]) + ": " + v;
    }
  }

  lemma {:induction false} FlatNoNewline(lab: PropertyKey -> string, code: LoanCode, props: seq<Property>, n: nat)
    requires LabelsFit(lab)
    requires SingleLineValues(props)
    ensures NoNewline(FlatLines(lab, code, props, n))
    decreases |props|
  {
    if |props| > 0 {
      FieldLinesNoNewline(lab, PrintOrder(code), props[0]);
      assert '\n' !in Title(n) by {
        assert forall i :: 0 <= i < |NatToString(n)| ==> NatToString(n)[i] != '\n';
        assert Title(n) == TitlePrefix + NatToString(n);
      }
      assert SingleLineValues(props[1..]) by {
        forall i, k | 0 <= i < |props[1..]|
          ensures '\n' !in Value(props[1..][i], k)
        {
          assert props[1..][i] == props[i + 1];
        }
      }
      FlatNoNewline(lab, code, props[1..], n + 1);
    }
  }

  /** Under any fitting label table the block is read back exactly: every property,
      in order, with each field the loan type prints and the property has filled
      in, provided no printed value spans several lines. */
  lemma RoundTripUnder(lab: PropertyKey -> string, code: LoanCode, props: seq<Property>)
    requires LabelsFit(lab)
    requires SingleLineValues(props)
    ensures Decode(lab, Block(lab, code, props)) == Some(Visible(code, props))
  {
    if |props| > 0 {
      var flat := FlatLines(lab, code, props, 1);
      var lines := [Header] + flat + [""];
      BlockIsFlat(lab, code, props);
      FlatNoNewline(lab, code, props, 1);
      FramedNoNewline(flat);
      SplitJoin(lines);
      assert lines[1..|lines| - 1] == flat;
      DecodeFlat(lab, code, props, 1);
    }
  }

  lemma FramedNoNewline(flat: seq<string>)
    requires NoNewline(flat)
    ensures NoNewline([Header] + flat + [""])
  {
    var lines := [Header] + flat + [""];
    forall i | 0 <= i < |lines|
      ensures '\n' !in lines[i]
    {
      if 0 < i < |lines| - 1 {
        assert lines[i] == flat[i - 1];
      }
    }
  }

  // ---- a value that spans lines ----

  lemma {:induction false} FieldLinesAppend(lab: PropertyKey -> string, ks1: seq<PropertyKey>, ks2: seq<PropertyKey>, p: Property)
    ensures FieldLines(lab, ks1 + ks2, p) == FieldLines(lab, ks1, p) + FieldLines(lab, ks2, p)
  {
    if |ks1| > 0 {
      assert (ks1 + ks2)[1..] == ks1[1..] + ks2;
      FieldLinesAppend(lab, ks1[1..], ks2, p);
    } else {
      assert ks1 + ks2 == ks2;
    }
  }

  lemma {:induction false} FieldLinesBlank(lab: PropertyKey -> string, ks: seq<PropertyKey>, p: Property)
    requires forall i :: 0 <= i < |ks| ==> Value(p, ks[i]) == ""
    ensures FieldLines(lab, ks, p) == []
  {
    if |ks| > 0 {
      FieldLinesBlank(lab, ks[1..], p);
    }
  }

  /** The property of a bridge loan whose renovation scope `a` is followed, on the
      next line, by what reads as a timeline field `t`. */
  function Smuggler(lab: PropertyKey -> string, a: string, t: string): Property
  {
    Property(IdPrefix + "1", map[RenovationScope := a + "\n" + Line(lab, BridgeTimeline, t)])
  }

  /** The property that really has renovation scope `a` and timeline `t`. */
  function Honest(a: string, t: string): Property
  {
    Property(IdPrefix + "1", map[RenovationScope := a, BridgeTimeline := t])
  }

  /** The fields a bridge loan prints, cut after the renovation scope's stretch. */
  lemma BridgeFieldsSplit()
    ensures PrintOrder(BRIDGE) == BlockFields[..6] + [RenovationScope] + (BlockFields[7..] + [BridgeArv])
                                  + [BridgeTimeline, BridgeExitStrategy]
  {
  }

  /** Among fields of which only `k` may be filled in, at most `k`'s line is printed. */
  lemma FieldLinesSingle(lab: PropertyKey -> string, pre: seq<PropertyKey>, k: PropertyKey, post: seq<PropertyKey>, p: Property)
    requires forall i :: 0 <= i < |pre| ==> Value(p, pre[i]) == ""
    requires forall i :: 0 <= i < |post| ==> Value(p, post[i]) == ""
    ensures FieldLines(lab, pre + [k] + post, p) == (if Value(p, k) != "" then [Line(lab, k, Value(p, k))] else [])
  {
    FieldLinesAppend(lab, pre + [k], post, p);
    FieldLinesAppend(lab, pre, [k], p);
    FieldLinesBlank(lab, pre, p);
    FieldLinesBlank(lab, post, p);
  }

  /** Neither the renovation scope nor the timeline sits in the two stretches of
      `PrintOrder(BRIDGE)` around the scope. */
  lemma BridgeStretches()
    ensures forall i :: 0 <= i < 6 ==> BlockFields[..6][i] != RenovationScope && BlockFields[..6][i] != BridgeTimeline
    ensures forall i :: 0 <= i < 11 ==>
              (BlockFields[7..] + [BridgeArv])[i] != RenovationScope && (BlockFields[7..] + [BridgeArv])[i] != BridgeTimeline
  {
  }

  lemma SmugglerLines(lab: PropertyKey -> string, a: string, t: string)
    ensures FieldLines(lab, PrintOrder(BRIDGE), Smuggler(lab, a, t))
         == [Line(lab, RenovationScope, a + "\n" + Line(lab, BridgeTimeline, t))]
  {
    var p1 := Smuggler(lab, a, t);
    var pre := BlockFields[..6];
    var mid := BlockFields[7..] + [BridgeArv];
    var tail: seq<PropertyKey> := [BridgeTimeline, BridgeExitStrategy];
    BridgeFieldsSplit();
    BridgeStretches();
    FieldLinesAppend(lab, pre + [RenovationScope] + mid, tail, p1);
    FieldLinesSingle(lab, pre, RenovationScope, mid, p1);
    FieldLinesBlank(lab, tail, p1);
  }

  lemma HonestLines(lab: PropertyKey -> string, a: string, t: string)
    requires a != "" && t != ""
    ensures FieldLines(lab, PrintOrder(BRIDGE), Honest(a, t))
         == [Line(lab, RenovationScope, a), Line(lab, BridgeTimeline, t)]
  {
    var p2 := Honest(a, t);
    var pre := BlockFields[..6];
    var mid := BlockFields[7..] + [BridgeArv];
    var tail: seq<PropertyKey> := [BridgeTimeline, BridgeExitStrategy];
    BridgeFieldsSplit();
    BridgeStretches();
    FieldLinesAppend(lab, pre + [RenovationScope] + mid, tail, p2);
    FieldLinesSingle(lab, pre, RenovationScope, mid, p2);
    FieldLinesSingle(lab, [], BridgeTimeline, [BridgeExitStrategy], p2);
    assert [] + [BridgeTimeline] + [BridgeExitStrategy] == tail;
  }

  lemma SameSection(lab: PropertyKey -> string, a: string, t: string)
    requires a != "" && t != ""
    ensures Section(lab, BRIDGE, Smuggler(lab, a, t), 1) == Section(lab, BRIDGE, Honest(a, t), 1)
  {
    var l := Line(lab, BridgeTimeline, t);
    var first := Line(lab, RenovationScope, a);
    SmugglerLines(lab, a, t);
    HonestLines(lab, a, t);
    assert [Title(1)] + [first, l] == [Title(1), first] + [l];
    JoinAppend([Title(1), first], [l]);
    JoinAppend([Title(1)], [Line(lab, RenovationScope, a + "\n" + l)]);
    JoinAppend([Title(1)], [first]);
    assert Line(lab, RenovationScope, a + "\n" + l) == first + "\n" + l;
  }

  /** A renovation scope that spans lines can impersonate another field: a bridge
      property whose scope is `a`, a line break and a timeline line is sent as the
      very text of a property with scope `a` and timeline `t`, so a reader of the
      block recovers a timeline that was never entered and loses the real scope. */
  lemma NewlineCollision(a: string, t: string)
    requires a != "" && t != ""
    requires '\n' !in a && '\n' !in t
    ensures BuildPropertiesTextBlock(BRIDGE, [Smuggler(Label, a, t)]) == BuildPropertiesTextBlock(BRIDGE, [Honest(a, t)])
    ensures DecodePropertiesTextBlock(BuildPropertiesTextBlock(BRIDGE, [Smuggler(Label, a, t)]))
         == Some(Visible(BRIDGE, [Honest(a, t)]))
    ensures Visible(BRIDGE, [Honest(a, t)]) != Visible(BRIDGE, [Smuggler(Label, a, t)])
  {
    SameBlock(a, t);
    HonestSingleLine(a, t);
    RoundTrip(BRIDGE, [Honest(a, t)]);
    TimelineVisibleOnlyWhenHonest(a, t);
  }

  lemma SameBlock(a: string, t: string)
    requires a != "" && t != ""
    ensures BuildPropertiesTextBlock(BRIDGE, [Smuggler(Label, a, t)]) == BuildPropertiesTextBlock(BRIDGE, [Honest(a, t)])
  {
    SameSection(Label, a, t);
    assert Sections(Label, BRIDGE, [Smuggler(Label, a, t)], 1) == Sections(Label, BRIDGE, [Honest(a, t)], 1);
  }

  lemma HonestSingleLine(a: string, t: string)
    requires '\n' !in a && '\n' !in t
    ensures SingleLineValues([Honest(a, t)])
  {
    var p := Honest(a, t);
    forall i, k | 0 <= i < 1
      ensures '\n' !in Value([p][i], k)
    {
    }
  }

  /** The timeline is a field of the honest property and no field of the smuggler. */
  lemma TimelineVisibleOnlyWhenHonest(a: string, t: string)
    requires t != ""
    ensures BridgeTimeline in Visible(BRIDGE, [Honest(a, t)])[0]
    ensures BridgeTimeline !in Visible(BRIDGE, [Smuggler(Label, a, t)])[0]
  {
    BridgeFieldsSplit();
    assert BridgeTimeline in PrintOrder(BRIDGE);
  }

  // ---- the label texts ----

  predicate Plain(s: string)
  {
    forall i :: 0 <= i < |s| ==> s[i] != ':' && s[i] != '\n'
  }

  /** Length, first and second character of each label: enough to tell them apart. */
  function Signature(k: PropertyKey): (int, char, char)
  {
    match k
    case PropertyAddress => (16, 'P', 'r')
    case PropertyType => (13, 'P', 'r')
    case StructureSize => (29, 'S', 'q')
    case YearBuiltCondition => (22, 'Y', 'e')
    case PurchasePrice => (20, 'P', 'u')
    case CurrentValue => (19, 'C', 'u')
    case RenovationScope => (16, 'R', 'e')
    case CapexBudget => (18, 'C', 'a')
    case OccupancyStatus => (16, 'O', 'c')
    case OccupancyPct => (24, 'O', 'c')
    case CurrentManagement => (18, 'C', 'u')
    case CurrentNoi => (25, 'C', 'u')
    case T12Noi => (21, 'T', '1')
    case GrossMonthlyRent => (24, 'G', 'r')
    case VacancyPct => (22, 'V', 'a')
    case ProjectedNoi => (27, 'P', 'r')
    case StabilizedDscr => (26, 'S', 't')
    case DscrAnnualTaxes => (27, 'A', 'n')
    case DscrAnnualInsurance => (22, 'A', 'n')
    case DscrRecurringFees => (20, 'R', 'e')
    case BridgeArv => (19, 'E', 's')
    case BridgeTimeline => (8, 'T', 'i')
    case BridgeExitStrategy => (13, 'E', 'x')
  }

  lemma PlainLabels0()
    ensures Plain("Property Address")
    ensures Plain("Property Type")
    ensures Plain("Square Footage / Units / Beds")
    ensures Plain("Year Built / Condition")
    ensures Plain("Purchase Price (USD)")
    ensures Plain("Current Value (USD)")
  {
  }

  lemma PlainLabels1()
    ensures Plain("Renovation Scope")
    ensures Plain("CapEx Budget (USD)")
    ensures Plain("Occupancy Status")
    ensures Plain("Occupancy Percentage (%)")
    ensures Plain("Current Management")
    ensures Plain("Current NOI (annual, USD)")
  {
  }

  lemma PlainLabels2()
    ensures Plain("T12 NOI (annual, USD)")
    ensures Plain("Gross Monthly Rent (USD)")
    ensures Plain("Vacancy Percentage (%)")
    ensures Plain("Projected NOI (annual, USD)")
    ensures Plain("Stabilized DSCR (if known)")
    ensures Plain("Annual Property Taxes (USD)")
  {
  }

  lemma PlainLabels3()
    ensures Plain("Annual Insurance (USD)")
    ensures Plain("Recurring Fees (USD)")
    ensures Plain("Estimated ARV (USD)")
    ensures Plain("Timeline")
    ensures Plain("Exit Strategy")
  {
  }

  lemma SignatureFacts0()
    ensures |"Property Address"| == 16 && "Property Address"[0] == 'P' && "Property Address"[1] == 'r'
    ensures |"Property Type"| == 13 && "Property Type"[0] == 'P' && "Property Type"[1] == 'r'
    ensures |"Square Footage / Units / Beds"| == 29 && "Square Footage / Units / Beds"[0] == 'S' && "Square Footage / Units / Beds"[1] == 'q'
    ensures |"Year Built / Condition"| == 22 && "Year Built / Condition"[0] == 'Y' && "Year Built / Condition"[1] == 'e'
    ensures |"Purchase Price (USD)"| == 20 && "Purchase Price (USD)"[0] == 'P' && "Purchase Price (USD)"[1] == 'u'
    ensures |"Current Value (USD)"| == 19 && "Current Value (USD)"[0] == 'C' && "Current Value (USD)"[1] == 'u'
  {
  }

  lemma SignatureFacts1()
    ensures |"Renovation Scope"| == 16 && "Renovation Scope"[0] == 'R' && "Renovation Scope"[1] == 'e'
    ensures |"CapEx Budget (USD)"| == 18 && "CapEx Budget (USD)"[0] == 'C' && "CapEx Budget (USD)"[1] == 'a'
    ensures |"Occupancy Status"| == 16 && "Occupancy Status"[0] == 'O' && "Occupancy Status"[1] == 'c'
    ensures |"Occupancy Percentage (%)"| == 24 && "Occupancy Percentage (%)"[0] == 'O' && "Occupancy Percentage (%)"[1] == 'c'
    ensures |"Current Management"| == 18 && "Current Management"[0] == 'C' && "Current Management"[1] == 'u'
    ensures |"Current NOI (annual, USD)"| == 25 && "Current NOI (annual, USD)"[0] == 'C' && "Current NOI (annual, USD)"[1] == 'u'
  {
  }

  lemma SignatureFacts2()
    ensures |"T12 NOI (annual, USD)"| == 21 && "T12 NOI (annual, USD)"[0] == 'T' && "T12 NOI (annual, USD)"[1] == '1'
    ensures |"Gross Monthly Rent (USD)"| == 24 && "Gross Monthly Rent (USD)"[0] == 'G' && "Gross Monthly Rent (USD)"[1] == 'r'
    ensures |"Vacancy Percentage (%)"| == 22 && "Vacancy Percentage (%)"[0] == 'V' && "Vacancy Percentage (%)"[1] == 'a'
    ensures |"Projected NOI (annual, USD)"| == 27 && "Projected NOI (annual, USD)"[0] == 'P' && "Projected NOI (annual, USD)"[1] == 'r'
    ensures |"Stabilized DSCR (if known)"| == 26 && "Stabilized DSCR (if known)"[0] == 'S' && "Stabilized DSCR (if known)"[1] == 't'
    ensures |"Annual Property Taxes (USD)"| == 27 && "Annual Property Taxes (USD)"[0] == 'A' && "Annual Property Taxes (USD)"[1] == 'n'
  {
  }

  lemma SignatureFacts3()
    ensures |"Annual Insurance (USD)"| == 22 && "Annual Insurance (USD)"[0] == 'A' && "Annual Insurance (USD)"[1] == 'n'
    ensures |"Recurring Fees (USD)"| == 20 && "Recurring Fees (USD)"[0] == 'R' && "Recurring Fees (USD)"[1] == 'e'
    ensures |"Estimated ARV (USD)"| == 19 && "Estimated ARV (USD)"[0] == 'E' && "Estimated ARV (USD)"[1] == 's'
    ensures |"Timeline"| == 8 && "Timeline"[0] == 'T' && "Timeline"[1] == 'i'
    ensures |"Exit Strategy"| == 13 && "Exit Strategy"[0] == 'E' && "Exit Strategy"[1] == 'x'
  {
  }

  lemma LabelSignature(k: PropertyKey)
    ensures |Label(k)| == Signature(k).0 && 2 <= |Label(k)|
            && Label(k)[0] == Signature(k).1 && Label(k)[1] == Signature(k).2
  {
    SignatureFacts0();
    SignatureFacts1();
    SignatureFacts2();
    SignatureFacts3();
  }

  lemma SignatureInjective(a: PropertyKey, b: PropertyKey)
    requires Signature(a) == Signature(b)
    ensures a == b
  {
  }

  /** The printed labels fit the layout: none holds a colon or a line break, and no
      two fields share one. */
  lemma LabelsFitLabel()
    ensures LabelsFit(Label)
  {
    PlainLabels0();
    PlainLabels1();
    PlainLabels2();
    PlainLabels3();
    forall k
      ensures ':' !in Label(k) && '\n' !in Label(k)
    {
      assert Plain(Label(k));
    }
    forall a, b | Label(a) == Label(b)
      ensures a == b
    {
      LabelSignature(a);
      LabelSignature(b);
      SignatureInjective(a, b);
    }
  }

  /** The block the form sends is read back exactly, provided no printed value spans
      several lines. */
  lemma RoundTrip(code: LoanCode, props: seq<Property>)
    requires SingleLineValues(props)
    ensures DecodePropertiesTextBlock(BuildPropertiesTextBlock(code, props)) == Some(Visible(code, props))
  {
    LabelsFitLabel();
    RoundTripUnder(Label, code, props);
  }
}
