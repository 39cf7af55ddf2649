/** Loan types, the per-property record, the list of property fields offered for a
    loan type (`propertyFieldList`), the category filter of `PropertyField`, and the
    edits the form makes to the list of properties. */
module Properties {
  import opened Options
  import opened Text

  /** The ten loan codes, in the order of the loan-type menu. */
  datatype LoanCode = CRE | DSCR | BRIDGE | SBA | EQUIP | WC_LOC | FACTOR | FRANCHISE | SPECIALTY_AV | OTHER

  const LoanCodes: seq<LoanCode> :=
    [CRE, DSCR, BRIDGE, SBA, EQUIP, WC_LOC, FACTOR, FRANCHISE, SPECIALTY_AV, OTHER]

  /** The code as it is sent in `loan_type`. */
  function CodeName(c: LoanCode): string
  {
    match c
    case CRE => "CRE"
    case DSCR => "DSCR"
    case BRIDGE => "BRIDGE"
    case SBA => "SBA"
    case EQUIP => "EQUIP"
    case WC_LOC => "WC_LOC"
    case FACTOR => "FACTOR"
    case FRANCHISE => "FRANCHISE"
    case SPECIALTY_AV => "SPECIALTY_AV"
    case OTHER => "OTHER"
  }

  /** The menu label, sent in `loan_type_label`. */
  function LoanLabel(c: LoanCode): string
  {
    match c
    case CRE => "Commercial Real Estate"
    case DSCR => "DSCR / Long-Term Rental"
    case BRIDGE => "Bridge / Fix & Flip"
    case SBA => "SBA"
    case EQUIP => "Equipment"
    case WC_LOC => "Working Capital / Line of Credit"
    case FACTOR => "Factoring (Invoice Financing)"
    case FRANCHISE => "Franchise"
    case SPECIALTY_AV => "Aviation"
    case OTHER => "Other / General"
  }

  /** `LOAN_TYPES.find(l => l.code === code) || null`: the first menu entry whose code
      is the selected value; the placeholder "" and any unknown value find nothing. */
  function FindLoan(code: string): (r: Option<LoanCode>)
    ensures r.Some? ==> CodeName(r.value) == code
  {
    FindLoanIn(code, LoanCodes)
  }

  function FindLoanIn(code: string, cs: seq<LoanCode>): (r: Option<LoanCode>)
    ensures r.Some? ==> r.value in cs && CodeName(r.value) == code
    ensures r.None? ==> forall i :: 0 <= i < |cs| ==> CodeName(cs[i]) != code
  {
    if |cs| == 0 then None
    else if CodeName(cs[0]) == code then Some(cs[0])
    else FindLoanIn(code, cs[1..])
  }

  lemma CodeNameInjective(c: LoanCode, d: LoanCode)
    requires CodeName(c) == CodeName(d)
    ensures c == d
  {
    assert CodeName(c)[0] == CodeName(d)[0];
    assert |CodeName(c)| == |CodeName(d)|;
  }

  /** Every loan code is found from its own name, and nothing else is found. */
  lemma FindLoanIff(code: string, c: LoanCode)
    ensures FindLoan(code) == Some(c) <==> code == CodeName(c)
  {
    if code == CodeName(c) {
      assert c in LoanCodes;
      var i :| 0 <= i < |LoanCodes| && LoanCodes[i] == c;
      assert CodeName(LoanCodes[i]) == code;
      CodeNameInjective(FindLoan(code).value, c);
    }
  }

  /** `MULTI_SUPPORTED`: the loan types offering the multiple-properties toggle. */
  predicate MultiSupported(c: LoanCode)
  {
    c in {CRE, DSCR, BRIDGE, OTHER}
  }

  /** The keys a property record may carry. */
  datatype PropertyKey =
    | PropertyAddress | PropertyType | StructureSize | YearBuiltCondition
    | PurchasePrice | CurrentValue | RenovationScope | CapexBudget
    | OccupancyStatus | OccupancyPct | CurrentManagement
    | CurrentNoi | T12Noi | GrossMonthlyRent | VacancyPct | ProjectedNoi | StabilizedDscr
    | DscrAnnualTaxes | DscrAnnualInsurance | DscrRecurringFees
    | BridgeArv | BridgeTimeline | BridgeExitStrategy

  /** The key's name in the source's `PropertyKey` union. */
  function KeyName(k: PropertyKey): string
  {
    match k
    case PropertyAddress => "property_address"
    case PropertyType => "property_type"
    case StructureSize => "structure_size"
    case YearBuiltCondition => "year_built_condition"
    case PurchasePrice => "purchase_price"
    case CurrentValue => "current_value"
    case RenovationScope => "renovation_scope"
    case CapexBudget => "capex_budget"
    case OccupancyStatus => "occupancy_status"
    case OccupancyPct => "occupancy_pct"
    case CurrentManagement => "current_management"
    case CurrentNoi => "current_noi"
    case T12Noi => "t12_noi"
    case GrossMonthlyRent => "gross_monthly_rent"
    case VacancyPct => "vacancy_pct"
    case ProjectedNoi => "projected_noi"
    case StabilizedDscr => "stabilized_dscr"
    case DscrAnnualTaxes => "dscr_annual_taxes"
    case DscrAnnualInsurance => "dscr_annual_insurance"
    case DscrRecurringFees => "dscr_recurring_fees"
    case BridgeArv => "bridge_arv"
    case BridgeTimeline => "bridge_timeline"
    case BridgeExitStrategy => "bridge_exit_strategy"
  }

  /** Which loan type, if any, a key is reserved for. */
  datatype Category = General | DscrOnly | BridgeOnly

  function CategoryOf(k: PropertyKey): Category
  {
    match k
    case DscrAnnualTaxes | DscrAnnualInsurance | DscrRecurringFees => DscrOnly
    case BridgeArv | BridgeTimeline | BridgeExitStrategy => BridgeOnly
    case _ => General
  }

  /** The reserved keys are exactly those named `dscr_*` and `bridge_*`. */
  lemma CategoryByName(k: PropertyKey)
    ensures CategoryOf(k) == DscrOnly <==> StartsWith(KeyName(k), "dscr_")
    ensures CategoryOf(k) == BridgeOnly <==> StartsWith(KeyName(k), "bridge_")
  {
    var name := KeyName(k);
    assert "dscr_"[0] == 'd' && "bridge_"[0] == 'b';
    assert StartsWith(name, "dscr_") ==> name[0] == 'd';
    assert StartsWith(name, "bridge_") ==> name[0] == 'b';
    match CategoryOf(k)
    case DscrOnly =>
      assert name[..5] == "dscr_";
    case BridgeOnly =>
      assert name[..7] == "bridge_";
    case General =>
      assert name[0] != 'd' && name[0] != 'b';
  }

  /** The sixteen keys offered for every loan type. */
  const BaseFields: seq<PropertyKey> := [
    PropertyAddress, PropertyType, StructureSize, YearBuiltCondition,
    PurchasePrice, CurrentValue, GrossMonthlyRent,
    OccupancyStatus, OccupancyPct, CurrentManagement,
    RenovationScope, CapexBudget, CurrentNoi, T12Noi, ProjectedNoi, StabilizedDscr]

  const DscrFields: seq<PropertyKey> := [DscrAnnualTaxes, DscrAnnualInsurance, DscrRecurringFees]
  const BridgeFields: seq<PropertyKey> := [BridgeArv, BridgeTimeline, BridgeExitStrategy]

  /** `propertyFieldList(code)`: the base keys, then the DSCR trio for a DSCR loan or
      the bridge trio for a bridge loan. */
  function PropertyFieldList(code: Option<LoanCode>): (r: seq<PropertyKey>)
    ensures |r| == |BaseFields| + if code == Some(DSCR) || code == Some(BRIDGE) then 3 else 0
  {
    BaseFields
      + (if code == Some(DSCR) then DscrFields else [])
      + (if code == Some(BRIDGE) then BridgeFields else [])
  }

  lemma BaseFieldsGeneral()
    ensures forall i :: 0 <= i < |BaseFields| ==>
              CategoryOf(BaseFields[i]) == General && BaseFields[i] != VacancyPct
  {
  }

  lemma GeneralInBase(k: PropertyKey)
    requires CategoryOf(k) == General && k != VacancyPct
    ensures k in BaseFields
  {
    var i :=
      match k
      case PropertyAddress => 0
      case PropertyType => 1
      case StructureSize => 2
      case YearBuiltCondition => 3
      case PurchasePrice => 4
      case CurrentValue => 5
      case GrossMonthlyRent => 6
      case OccupancyStatus => 7
      case OccupancyPct => 8
      case CurrentManagement => 9
      case RenovationScope => 10
      case CapexBudget => 11
      case CurrentNoi => 12
      case T12Noi => 13
      case ProjectedNoi => 14
      case _ => 15;
    assert BaseFields[i] == k;
  }

  /** Membership in the field list: a general key except `vacancy_pct` is always
      offered, a reserved key exactly for its own loan type. */
  lemma FieldListMembers(code: Option<LoanCode>, k: PropertyKey)
    ensures k in PropertyFieldList(code) <==>
              match CategoryOf(k)
              case General => k != VacancyPct
              case DscrOnly => code == Some(DSCR)
              case BridgeOnly => code == Some(BRIDGE)
  {
    var r := PropertyFieldList(code);
    BaseFieldsGeneral();
    if CategoryOf(k) == General && k != VacancyPct {
      GeneralInBase(k);
    }
    if k in r {
      assert k in BaseFields || k in DscrFields || k in BridgeFields;
    }
    if CategoryOf(k) == DscrOnly && code == Some(DSCR) {
      assert k in DscrFields;
    }
    if CategoryOf(k) == BridgeOnly && code == Some(BRIDGE) {
      assert k in BridgeFields;
    }
  }

  /** The position of each key in the field list of its loan type
      (`vacancy_pct`, which no list offers, comes last). */
  function ListRank(k: PropertyKey): nat
  {
    match k
    case PropertyAddress => 0
    case PropertyType => 1
    case StructureSize => 2
    case YearBuiltCondition => 3
    case PurchasePrice => 4
    case CurrentValue => 5
    case GrossMonthlyRent => 6
    case OccupancyStatus => 7
    case OccupancyPct => 8
    case CurrentManagement => 9
    case RenovationScope => 10
    case CapexBudget => 11
    case CurrentNoi => 12
    case T12Noi => 13
    case ProjectedNoi => 14
    case StabilizedDscr => 15
    case DscrAnnualTaxes => 16
    case DscrAnnualInsurance => 17
    case DscrRecurringFees => 18
    case BridgeArv => 19
    case BridgeTimeline => 20
    case BridgeExitStrategy => 21
    case VacancyPct => 22
  }

  predicate Ascending(ks: seq<PropertyKey>)
  {
    forall i :: 0 <= i < |ks| - 1 ==> ListRank(ks[i]) < ListRank(ks[i + 1])
  }

  lemma {:induction false} AscendingSpread(ks: seq<PropertyKey>)
    requires Ascending(ks)
    ensures forall i, j :: 0 <= i < j < |ks| ==> ListRank(ks[i]) < ListRank(ks[j])
  {
    if |ks| > 1 {
      var t := ks[1..];
      assert Ascending(t) by {
        forall i | 0 <= i < |t| - 1
          ensures ListRank(t[i]) < ListRank(t[i + 1])
        {
          assert t[i] == ks[i + 1] && t[i + 1] == ks[i + 2];
        }
      }
      AscendingSpread(t);
      forall i, j | 0 <= i < j < |ks|
        ensures ListRank(ks[i]) < ListRank(ks[j])
      {
        if i == 0 {
          if j > 1 {
            assert ListRank(t[0]) < ListRank(t[j - 1]);
          }
        } else {
          assert ListRank(t[i - 1]) < ListRank(t[j - 1]);
        }
      }
    }
  }

  lemma AscendingAppend(a: seq<PropertyKey>, b: seq<PropertyKey>)
    requires Ascending(a) && Ascending(b)
    requires |a| > 0 && |b| > 0 ==> ListRank(a[|a| - 1]) < ListRank(b[0])
    ensures Ascending(a + b)
  {
    var c := a + b;
    forall i | 0 <= i < |c| - 1
      ensures ListRank(c[i]) < ListRank(c[i + 1])
    {
      if i + 1 < |a| {
        assert c[i] == a[i] && c[i + 1] == a[i + 1];
      } else if i + 1 == |a| {
        assert c[i] == a[|a| - 1] && c[i + 1] == b[0];
      } else {
        assert c[i] == b[i - |a|] && c[i + 1] == b[i - |a| + 1];
      }
    }
  }

  lemma PartsAscending()
    ensures Ascending(BaseFields) && Ascending(DscrFields) && Ascending(BridgeFields)
  {
  }

  /** No key is offered twice. */
  lemma FieldListDistinct(code: Option<LoanCode>)
    ensures forall i, j :: 0 <= i < j < |PropertyFieldList(code)| ==>
              PropertyFieldList(code)[i] != PropertyFieldList(code)[j]
  {
    var d: seq<PropertyKey> := if code == Some(DSCR) then DscrFields else [];
    var b: seq<PropertyKey> := if code == Some(BRIDGE) then BridgeFields else [];
    PartsAscending();
    AscendingAppend(BaseFields, d);
    assert |d| > 0 ==> |b| == 0;
    assert |b| > 0 ==> BaseFields + d == BaseFields;
    AscendingAppend(BaseFields + d, b);
    assert PropertyFieldList(code) == BaseFields + d + b;
    AscendingSpread(BaseFields + d + b);
  }

  /** The render filter of `PropertyField`: a `dscr_*` field renders only for a DSCR
      loan and a `bridge_*` field only for a bridge loan. */
  predicate Rendered(code: Option<LoanCode>, k: PropertyKey)
  {
    !(CategoryOf(k) == DscrOnly && code != Some(DSCR))
    && !(CategoryOf(k) == BridgeOnly && code != Some(BRIDGE))
  }

  /** The fields shown for one property: the field list, through the render filter. */
  function ShownFields(code: Option<LoanCode>): (r: seq<PropertyKey>)
    ensures forall i :: 0 <= i < |r| ==> Rendered(code, r[i])
  {
    Filter(code, PropertyFieldList(code))
  }

  function Filter(code: Option<LoanCode>, ks: seq<PropertyKey>): (r: seq<PropertyKey>)
    ensures forall i :: 0 <= i < |r| ==> Rendered(code, r[i]) && r[i] in ks
  {
    if |ks| == 0 then []
    else (if Rendered(code, ks[0]) then [ks[0]] else []) + Filter(code, ks[1..])
  }

  lemma {:induction false} FilterKeepsAll(code: Option<LoanCode>, ks: seq<PropertyKey>)
    requires forall i :: 0 <= i < |ks| ==> Rendered(code, ks[i])
    ensures Filter(code, ks) == ks
  {
    if |ks| > 0 {
      FilterKeepsAll(code, ks[1..]);
      assert [ks[0]] + ks[1..] == ks;
    }
  }

  /** The render filter never hides a field the list offers: the list already leaves
      out the other loan types' reserved keys, so the filter is a second guard that
      removes nothing. */
  lemma ShownFieldsAreFieldList(code: Option<LoanCode>)
    ensures ShownFields(code) == PropertyFieldList(code)
    ensures forall k :: k in ShownFields(code) && StartsWith(KeyName(k), "dscr_") ==> code == Some(DSCR)
    ensures forall k :: k in ShownFields(code) && StartsWith(KeyName(k), "bridge_") ==> code == Some(BRIDGE)
  {
    var r := PropertyFieldList(code);
    forall i | 0 <= i < |r|
      ensures Rendered(code, r[i])
    {
      FieldListMembers(code, r[i]);
    }
    FilterKeepsAll(code, r);
    forall k | k in r
      ensures StartsWith(KeyName(k), "dscr_") ==> code == Some(DSCR)
      ensures StartsWith(KeyName(k), "bridge_") ==> code == Some(BRIDGE)
    {
      CategoryByName(k);
      FieldListMembers(code, k);
    }
  }

  // ---- the property records and their edits ----

  /** `{ id } & Partial<Record<PropertyKey, string>>`: a key absent from `values` is
      an unset field. */
  datatype Property = Property(id: string, values: map<PropertyKey, string>)

  /** `p[k] || ""`: the text a field shows and the block prints. */
  function Value(p: Property, k: PropertyKey): string
  {
    if k in p.values then p.values[k] else ""
  }

  const IdPrefix: string := "prop_"

  /** A new, blank property whose id is built from a fresh identifier. */
  function Blank(uuid: string): (r: Property)
    ensures StartsWith(r.id, IdPrefix)
    ensures forall k :: Value(r, k) == ""
  {
    Property(IdPrefix + uuid, map[])
  }

  /** `addProperty`: appends a blank property. */
  function AddProperty(props: seq<Property>, uuid: string): (r: seq<Property>)
    ensures |r| == |props| + 1
    ensures r[..|props|] == props
    ensures forall k :: Value(r[|props|], k) == ""
  {
    props + [Blank(uuid)]
  }

  /** `removeProperty(idx)`: `filter((_, i) => i !== idx)`, walked index by index. */
  function RemoveProperty(props: seq<Property>, idx: int): (r: seq<Property>)
    ensures |r| == if 0 <= idx < |props| then |props| - 1 else |props|
  {
    RemoveFrom(props, idx, 0)
  }

  /** The filter over `props`, whose first element sits at index `base` of the list. */
  function RemoveFrom(props: seq<Property>, idx: int, base: nat): (r: seq<Property>)
    ensures |r| == if base <= idx < base + |props| then |props| - 1 else |props|
  {
    if |props| == 0 then []
    else (if base == idx then [] else [props[0]]) + RemoveFrom(props[1..], idx, base + 1)
  }

  lemma {:induction false} RemoveFromSlice(props: seq<Property>, idx: int, base: nat)
    ensures RemoveFrom(props, idx, base)
            == if base <= idx < base + |props| then props[..idx - base] + props[idx - base + 1..]
               else props
  {
    if |props| > 0 {
      RemoveFromSlice(props[1..], idx, base + 1);
      if base == idx {
        assert props[..0] + props[1..] == props[1..];
      } else if base < idx < base + |props| {
        ConsCut(props, idx - base);
      } else {
        assert [props[0]] + props[1..] == props;
      }
    }
  }

  /** Cutting entry `j` out of the tail and putting the head back cuts it out of the list. */
  lemma ConsCut<T>(s: seq<T>, j: nat)
    requires 1 <= j < |s|
    ensures [s[0]] + (s[1..][..j - 1] + s[1..][j..]) == s[..j] + s[j + 1..]
  {
    assert [s[0]] + s[1..][..j - 1] == s[..j];
    assert s[1..][j..] == s[j + 1..];
  }

  /** Removing drops exactly the entry at `idx`, keeping the others in order; an
      index outside the list removes nothing. */
  lemma RemoveIsSlice(props: seq<Property>, idx: int)
    ensures RemoveProperty(props, idx)
            == if 0 <= idx < |props| then props[..idx] + props[idx + 1..] else props
  {
    RemoveFromSlice(props, idx, 0);
  }

  /** Removing the property just added gives the list back. */
  lemma RemoveUndoesAdd(props: seq<Property>, uuid: string)
    ensures RemoveProperty(AddProperty(props, uuid), |props|) == props
  {
    RemoveIsSlice(AddProperty(props, uuid), |props|);
  }

  /** `updateProperty(idx, key, val)`: sets one field of one property. */
  function UpdateProperty(props: seq<Property>, idx: nat, key: PropertyKey, val: string): (r: seq<Property>)
    requires idx < |props|
    ensures |r| == |props|
    ensures r[idx].id == props[idx].id
    ensures Value(r[idx], key) == val
    ensures forall k :: k != key ==> Value(r[idx], k) == Value(props[idx], k)
    ensures forall i :: 0 <= i < |props| && i != idx ==> r[i] == props[i]
  {
    props[idx := Property(props[idx].id, props[idx].values[key := val])]
  }

  /** A later edit of the same field overrides an earlier one. */
  lemma UpdateLastWins(props: seq<Property>, idx: nat, key: PropertyKey, v1: string, v2: string)
    requires idx < |props|
    ensures UpdateProperty(UpdateProperty(props, idx, key, v1), idx, key, v2)
            == UpdateProperty(props, idx, key, v2)
  {
    assert props[idx].values[key := v1][key := v2] == props[idx].values[key := v2];
  }

  /** Edits of different fields, or of different properties, commute. */
  lemma UpdateCommutes(props: seq<Property>, i: nat, k1: PropertyKey, v1: string,
                       j: nat, k2: PropertyKey, v2: string)
    requires i < |props| && j < |props|
    requires i != j || k1 != k2
    ensures UpdateProperty(UpdateProperty(props, i, k1, v1), j, k2, v2)
            == UpdateProperty(UpdateProperty(props, j, k2, v2), i, k1, v1)
  {
    if i == j {
      assert props[i].values[k1 := v1][k2 := v2] == props[i].values[k2 := v2][k1 := v1];
    }
  }

  /** The multiple-properties toggle: choosing yes on an empty list starts it with two
      blank properties; choosing no clears the list. */
  function SetMulti(v: bool, props: seq<Property>, uuid1: string, uuid2: string): (r: seq<Property>)
    ensures !v ==> r == []
    ensures v && |props| > 0 ==> r == props
    ensures v && |props| == 0 ==> |r| == 2 && forall i, k :: 0 <= i < 2 ==> Value(r[i], k) == ""
  {
    if v && |props| == 0 then [Blank(uuid1), Blank(uuid2)]
    else if !v then []
    else props
  }

  /** Choosing the same answer twice changes nothing the second time. */
  lemma SetMultiIdempotent(v: bool, props: seq<Property>, u1: string, u2: string, u3: string, u4: string)
    ensures SetMulti(v, SetMulti(v, props, u1, u2), u3, u4) == SetMulti(v, props, u1, u2)
  {
  }

  /** Every property id carries the `prop_` prefix. */
  predicate IdsWellFormed(props: seq<Property>)
  {
    forall i :: 0 <= i < |props| ==> StartsWith(props[i].id, IdPrefix)
  }

  lemma AddKeepsIds(props: seq<Property>, uuid: string)
    requires IdsWellFormed(props)
    ensures IdsWellFormed(AddProperty(props, uuid))
  {
    var a := AddProperty(props, uuid);
    assert forall i :: 0 <= i < |a| ==> a[i] == (if i < |props| then props[i] else Blank(uuid));
  }

  lemma RemoveKeepsIds(props: seq<Property>, idx: int)
    requires IdsWellFormed(props)
    ensures IdsWellFormed(RemoveProperty(props, idx))
  {
    RemoveIsSlice(props, idx);
    var r := RemoveProperty(props, idx);
    if 0 <= idx < |props| {
      forall i | 0 <= i < |r|
        ensures StartsWith(r[i].id, IdPrefix)
      {
        assert r[i] == (if i < idx then props[i] else props[i + 1]);
      }
    }
  }

  /** Each edit keeps the ids well formed. */
  lemma EditsKeepIds(props: seq<Property>, uuid: string, u2: string, idx: int, key: PropertyKey, val: string, v: bool)
    requires IdsWellFormed(props)
    ensures IdsWellFormed(AddProperty(props, uuid))
    ensures IdsWellFormed(RemoveProperty(props, idx))
    ensures 0 <= idx < |props| ==> IdsWellFormed(UpdateProperty(props, idx, key, val))
    ensures IdsWellFormed(SetMulti(v, props, uuid, u2))
  {
    AddKeepsIds(props, uuid);
    RemoveKeepsIds(props, idx);
  }
}
