/**
 The tax engine: rate rows, the table scan, US nexus and `resolve_tax`
 (crates/core/src/tax/rate.rs, table.rs, nexus.rs, resolver.rs).
 */
module Tax {
  import opened Wrappers
  import opened Calendar
  import opened Money

  datatype Jurisdiction = QuebecCa | DelawareUs | AlgiersDz {
    function Country(): string {
      match this
      case QuebecCa => "CA"
      case DelawareUs => "US"
      case AlgiersDz => "DZ"
    }

    function Region(): string {
      match this
      case QuebecCa => "QC"
      case DelawareUs => "DE"
      case AlgiersDz => "16"
    }
  }

  datatype Category = Standard | Reduced | ZeroRated | Exempt

  datatype Address = Address(country: string, region: Option<string>)

  datatype Rate = Rate(id: string, jurisdiction: Jurisdiction, appliesCountry: Option<string>,
                       appliesRegion: Option<string>, category: Category, rate: real,
                       effectiveFrom: Date, effectiveTo: Option<Date>)

  datatype Threshold = Threshold(enabled: bool, revenue: Option<real>, txnCount: Option<nat>)

  datatype Figures = Figures(revenue: real, txnCount: nat)

  /** What `CoreCtx` supplies: the rate rows in file order and the nexus map. */
  datatype Config = Config(table: seq<Rate>, nexus: map<string, Threshold>)

  datatype Scope = DomesticLocal | DomesticOther | Exporting

  datatype TaxError = InvalidBuyerCountry(country: string)

  /** The advisories, without their text. */
  datatype Warning = ReducedFallsBack | NoRows | NoRegion | NexusButNoRow | NoNexus

  datatype Resolved = Resolved(amount: real, ids: seq<string>, review: bool, isExport: bool,
                               scope: Scope, warnings: seq<Warning>)

  // ---------------------------------------------------------------------------
  // ASCII case
  // ---------------------------------------------------------------------------

  function UpperChar(c: char): char {
    if 'a' <= c <= 'z' then (c as int - 32) as char else c
  }

  function Upper(s: string): (u: string)
    ensures |u| == |s|
  {
    if s == "" then "" else [UpperChar(s[0])] + Upper(s[1..])
  }

  /** `eq_ignore_ascii_case` */
  predicate SameText(a: string, b: string) {
    Upper(a) == Upper(b)
  }

  // ---------------------------------------------------------------------------
  // The table
  // ---------------------------------------------------------------------------

  predicate EffectiveOn(r: Rate, at: Date) {
    !DateBefore(at, r.effectiveFrom) && !(r.effectiveTo.Some? && DateBefore(r.effectiveTo.value, at))
  }

  predicate Matches(r: Rate, seller: Jurisdiction, buyer: Address, category: Category, at: Date) {
    && r.jurisdiction == seller
    && (r.appliesCountry.Some? ==> SameText(r.appliesCountry.value, buyer.country))
    && (r.appliesRegion.Some? ==> buyer.region.Some? && SameText(r.appliesRegion.value, buyer.region.value))
    && r.category == category
    && EffectiveOn(r, at)
  }

  function Lookup(table: seq<Rate>, seller: Jurisdiction, buyer: Address, category: Category, at: Date)
    : (rows: seq<Rate>)
    ensures forall r :: r in rows <==> r in table && Matches(r, seller, buyer, category, at)
  {
    if table == [] then []
    else
      var rest := Lookup(table[1..], seller, buyer, category, at);
      if Matches(table[0], seller, buyer, category, at) then [table[0]] + rest else rest
  }

  function SumRates(rows: seq<Rate>): real {
    if rows == [] then 0.0 else SumRates(rows[..|rows| - 1]) + rows[|rows| - 1].rate
  }

  function Ids(rows: seq<Rate>): seq<string> {
    if rows == [] then [] else Ids(rows[..|rows| - 1]) + [rows[|rows| - 1].id]
  }

  // ---------------------------------------------------------------------------
  // Scope and nexus
  // ---------------------------------------------------------------------------

  function ScopeOf(seller: Jurisdiction, buyer: Address): Scope {
    if !SameText(buyer.country, seller.Country()) then Exporting
    else
      match buyer.region
      case Some(r) => if SameText(r, seller.Region()) then DomesticLocal else DomesticOther
      case None => if seller.AlgiersDz? then DomesticLocal else DomesticOther
  }

  function Classify(seller: Jurisdiction, buyer: Address): Result<Scope, TaxError> {
    if buyer.country == "" then Failure(InvalidBuyerCountry(buyer.country))
    else Success(ScopeOf(seller, buyer))
  }

  predicate HasNexus(t: Threshold, f: Figures) {
    t.enabled &&
    ((t.revenue.None? && t.txnCount.None?)
     || (t.revenue.Some? && f.revenue >= t.revenue.value)
     || (t.txnCount.Some? && f.txnCount >= t.txnCount.value))
  }

  /** The uppercased state first, then the state as written. */
  function NexusOf(nexus: map<string, Threshold>, state: string): Option<Threshold> {
    if Upper(state) in nexus then Some(nexus[Upper(state)])
    else if state in nexus then Some(nexus[state])
    else None
  }

  predicate NexusCrossed(nexus: map<string, Threshold>, buyer: Address, f: Figures) {
    && buyer.region.Some?
    && NexusOf(nexus, buyer.region.value).Some?
    && HasNexus(NexusOf(nexus, buyer.region.value).value, f)
  }

  // ---------------------------------------------------------------------------
  // The specification
  // ---------------------------------------------------------------------------

  /** The rows a line of this category is charged or labelled with. */
  function PickedRows(c: Config, seller: Jurisdiction, buyer: Address, category: Category, at: Date): seq<Rate> {
    var rows := Lookup(c.table, seller, buyer, category, at);
    if category == Reduced && rows == [] then Lookup(c.table, seller, buyer, Standard, at) else rows
  }

  /** A US seller with a buyer in another state charges nothing until nexus is established. */
  predicate NeedsReview(c: Config, seller: Jurisdiction, buyer: Address, category: Category, f: Figures) {
    && (category == Standard || category == Reduced)
    && seller == DelawareUs && ScopeOf(seller, buyer) == DomesticOther
    && !NexusCrossed(c.nexus, buyer, f)
  }

  predicate IsTaxed(c: Config, seller: Jurisdiction, buyer: Address, category: Category, f: Figures) {
    && (category == Standard || category == Reduced)
    && ScopeOf(seller, buyer) != Exporting
    && !NeedsReview(c, seller, buyer, category, f)
  }

  /** The rows whose rates make up the amount. */
  function ChargedRows(c: Config, seller: Jurisdiction, buyer: Address, category: Category, f: Figures, at: Date)
    : seq<Rate>
  {
    if IsTaxed(c, seller, buyer, category, f) then PickedRows(c, seller, buyer, category, at) else []
  }

  /** The rows recorded for audit: those charged, or those that label an untaxed line. */
  function RecordedRows(c: Config, seller: Jurisdiction, buyer: Address, category: Category, f: Figures, at: Date)
    : seq<Rate>
  {
    if category == ZeroRated || category == Exempt then PickedRows(c, seller, buyer, category, at)
    else ChargedRows(c, seller, buyer, category, f, at)
  }

  function Times(x: real, y: real): real {
    x * y
  }

  /** The tax before rounding. */
  function ExactTax(c: Config, seller: Jurisdiction, buyer: Address, category: Category, base: real,
                    f: Figures, at: Date): real
  {
    Times(base, SumRates(ChargedRows(c, seller, buyer, category, f, at)))
  }

  /**
   The advisories: a reduced line charged or labelled at the standard rate, then a charge that found no
   row, or the reason for a review.
   */
  function Advisories(c: Config, seller: Jurisdiction, buyer: Address, category: Category, f: Figures, at: Date)
    : seq<Warning>
  {
    if NeedsReview(c, seller, buyer, category, f) then [if buyer.region.None? then NoRegion else NoNexus]
    else if !IsTaxed(c, seller, buyer, category, f) then []
    else
      (if category == Reduced && Lookup(c.table, seller, buyer, Reduced, at) == [] then [ReducedFallsBack] else []) +
      (if PickedRows(c, seller, buyer, category, at) != [] then []
       else if ScopeOf(seller, buyer) == DomesticLocal then [NoRows]
       else if seller == DelawareUs then [NexusButNoRow]
       else [])
  }

  /** The resolver's answer. */
  ghost predicate Meets(r: Resolved, c: Config, seller: Jurisdiction, buyer: Address, category: Category,
                        base: real, currency: Currency, f: Figures, at: Date)
  {
    && r.amount == currency.Round(ExactTax(c, seller, buyer, category, base, f, at))
    && r.ids == Ids(RecordedRows(c, seller, buyer, category, f, at))
    && r.review == NeedsReview(c, seller, buyer, category, f)
    && r.scope == ScopeOf(seller, buyer)
    && r.isExport == (r.scope == Exporting)
    && r.warnings == Advisories(c, seller, buyer, category, f, at)
  }

  /** The same answer as a value, for callers that need one. */
  function TaxOf(c: Config, seller: Jurisdiction, buyer: Address, category: Category, base: real,
                 currency: Currency, f: Figures, at: Date): real
  {
    currency.Round(ExactTax(c, seller, buyer, category, base, f, at))
  }

  lemma NothingCharged(c: Config, seller: Jurisdiction, buyer: Address, category: Category, base: real,
                       currency: Currency, f: Figures, at: Date)
    requires ChargedRows(c, seller, buyer, category, f, at) == []
    ensures ExactTax(c, seller, buyer, category, base, f, at) == 0.0
    ensures TaxOf(c, seller, buyer, category, base, currency, f, at) == currency.Round(0.0) == 0.0
  {
    var none: seq<Rate> := [];
    assert SumRates(none) == 0.0;
    ZeroOnGrid(currency);
  }

  lemma NoIds()
    ensures Ids([]) == []
  {
  }

  // ---------------------------------------------------------------------------
  // The resolver
  // ---------------------------------------------------------------------------

  method PickRates(c: Config, seller: Jurisdiction, buyer: Address, category: Category, at: Date)
    returns (rows: seq<Rate>, warnings: seq<Warning>)
    ensures rows == PickedRows(c, seller, buyer, category, at)
    ensures warnings == if category == Reduced && Lookup(c.table, seller, buyer, Reduced, at) == []
                        then [ReducedFallsBack] else []
  {
    warnings := [];
    rows := Lookup(c.table, seller, buyer, category, at);
    if category == Reduced && rows == [] {
      warnings := warnings + [ReducedFallsBack];
      rows := Lookup(c.table, seller, buyer, Standard, at);
    }
  }

  /** The accumulation loop every taxed branch runs. */
  method Charge(base: real, rows: seq<Rate>) returns (amount: real, ids: seq<string>)
    ensures amount == Times(base, SumRates(rows))
    ensures ids == Ids(rows)
  {
    amount, ids := 0.0, [];
    for i := 0 to |rows|
      invariant amount == Times(base, SumRates(rows[..i]))
      invariant ids == Ids(rows[..i])
    {
      assert rows[..i + 1][..i] == rows[..i];
      Distribute(base, SumRates(rows[..i]), rows[i].rate);
      amount := amount + base * rows[i].rate;
      ids := ids + [rows[i].id];
    }
    assert rows[..|rows|] == rows;
  }

  lemma Distribute(a: real, x: real, y: real)
    ensures Times(a, x + y) == Times(a, x) + a * y
  {
  }

  /** A line that owes nothing: exempt, zero-rated, exported or under review. */
  lemma UntaxedMeets(r: Resolved, c: Config, seller: Jurisdiction, buyer: Address, category: Category,
                     base: real, currency: Currency, f: Figures, at: Date)
    requires !IsTaxed(c, seller, buyer, category, f)
    requires r == Resolved(currency.Round(0.0), r.ids, NeedsReview(c, seller, buyer, category, f),
                           r.scope == Exporting, ScopeOf(seller, buyer), r.warnings)
    requires r.ids == if category == ZeroRated || category == Exempt
                      then Ids(PickedRows(c, seller, buyer, category, at)) else []
    requires r.warnings == if r.review then [if buyer.region.None? then NoRegion else NoNexus] else []
    ensures Meets(r, c, seller, buyer, category, base, currency, f, at)
  {
    hide Lookup, SumRates, Times, Currency.Round, SameText;
    NothingCharged(c, seller, buyer, category, base, currency, f, at);
    NoIds();
  }

  /** A line charged with the rows picked for it; with no row the amount is zero. */
  lemma TaxedMeets(r: Resolved, c: Config, seller: Jurisdiction, buyer: Address, category: Category,
                   base: real, currency: Currency, f: Figures, at: Date)
    requires IsTaxed(c, seller, buyer, category, f)
    requires var rows := PickedRows(c, seller, buyer, category, at);
             r == Resolved(currency.Round(Times(base, SumRates(rows))), Ids(rows), false, false,
                           ScopeOf(seller, buyer), r.warnings)
    requires r.warnings == Advisories(c, seller, buyer, category, f, at)
    ensures Meets(r, c, seller, buyer, category, base, currency, f, at)
  {
    hide Lookup, SumRates, Ids, Times, Currency.Round, SameText;
  }

  lemma NoRowsCharged(base: real, currency: Currency, rows: seq<Rate>)
    requires rows == []
    ensures currency.Round(Times(base, SumRates(rows))) == currency.Round(0.0) && Ids(rows) == []
  {
  }

  method ResolveTax(c: Config, seller: Jurisdiction, buyer: Address, category: Category, base: real,
                    currency: Currency, f: Figures, at: Date)
    returns (r: Result<Resolved, TaxError>)
    ensures r.Failure? <==> buyer.country == ""
    ensures r.Failure? ==> r.error == InvalidBuyerCountry(buyer.country)
    ensures r.Success? ==> Meets(r.value, c, seller, buyer, category, base, currency, f, at)
  {
    hide Lookup, PickedRows, SumRates, Ids, Times, Currency.Round, SameText, HasNexus, Meets;
    var classified := Classify(seller, buyer);
    if classified.Failure? {
      return Failure(classified.error);
    }
    var scope := classified.value;
    var answer := Resolved(currency.Round(0.0), [], false, false, scope, []);

    if category == ZeroRated || category == Exempt {
      var rows, warnings := PickRates(c, seller, buyer, category, at);
      var _, ids := Charge(0.0, rows);
      answer := answer.(ids := ids, isExport := scope == Exporting, warnings := warnings);
      UntaxedMeets(answer, c, seller, buyer, category, base, currency, f, at);
      return Success(answer);
    }
    match scope {
      case Exporting =>
        answer := answer.(isExport := true);
        UntaxedMeets(answer, c, seller, buyer, category, base, currency, f, at);
        return Success(answer);
      case DomesticLocal =>
        var rows, warnings := PickRates(c, seller, buyer, category, at);
        if rows == [] {
          NoRowsCharged(base, currency, rows);
          answer := answer.(warnings := warnings + [NoRows]);
          TaxedMeets(answer, c, seller, buyer, category, base, currency, f, at);
          return Success(answer);
        }
        var amount, ids := Charge(base, rows);
        answer := answer.(amount := currency.Round(amount), ids := ids, warnings := warnings);
        TaxedMeets(answer, c, seller, buyer, category, base, currency, f, at);
        return Success(answer);
      case DomesticOther =>
        match seller {
          case QuebecCa =>
            var rows, warnings := PickRates(c, seller, buyer, category, at);
            var amount, ids := Charge(base, rows);
            answer := answer.(amount := currency.Round(amount), ids := ids, warnings := warnings);
            TaxedMeets(answer, c, seller, buyer, category, base, currency, f, at);
            return Success(answer);
          case DelawareUs =>
            if buyer.region.None? {
              answer := answer.(review := true, warnings := [NoRegion]);
              UntaxedMeets(answer, c, seller, buyer, category, base, currency, f, at);
              return Success(answer);
            }
            var threshold := NexusOf(c.nexus, buyer.region.value);
            if threshold.Some? && HasNexus(threshold.value, f) {
              var rows, warnings := PickRates(c, seller, buyer, category, at);
              var amount, ids := Charge(base, rows);
              if rows == [] {
                warnings := warnings + [NexusButNoRow];
              }
              answer := answer.(amount := currency.Round(amount), ids := ids, warnings := warnings);
              TaxedMeets(answer, c, seller, buyer, category, base, currency, f, at);
              return Success(answer);
            }
            answer := answer.(review := true, warnings := [NoNexus]);
            UntaxedMeets(answer, c, seller, buyer, category, base, currency, f, at);
            return Success(answer);
          case AlgiersDz =>
            var rows, warnings := PickRates(c, seller, buyer, category, at);
            var amount, ids := Charge(base, rows);
            answer := answer.(amount := currency.Round(amount), ids := ids, warnings := warnings);
            TaxedMeets(answer, c, seller, buyer, category, base, currency, f, at);
            return Success(answer);
        }
    }
  }

  // ---------------------------------------------------------------------------
  // Properties of the answer
  // ---------------------------------------------------------------------------

  lemma {:induction false} LookupAppend(s: seq<Rate>, t: seq<Rate>, seller: Jurisdiction, buyer: Address,
                                        category: Category, at: Date)
    ensures Lookup(s + t, seller, buyer, category, at)
         == Lookup(s, seller, buyer, category, at) + Lookup(t, seller, buyer, category, at)
  {
    if s == [] {
      assert s + t == t;
    } else {
      assert (s + t)[1..] == s[1..] + t;
      LookupAppend(s[1..], t, seller, buyer, category, at);
    }
  }

  lemma {:induction false} SumAppend(s: seq<Rate>, t: seq<Rate>)
    ensures SumRates(s + t) == SumRates(s) + SumRates(t)
  {
    if t == [] {
      assert s + t == s;
    } else {
      var n := |t| - 1;
      assert (s + t)[..|s| + n] == s + t[..n];
      SumAppend(s, t[..n]);
    }
  }

  function LookupSum(table: seq<Rate>, seller: Jurisdiction, buyer: Address, category: Category, at: Date): real {
    SumRates(Lookup(table, seller, buyer, category, at))
  }

  lemma PullOut(t: seq<Rate>, i: nat, seller: Jurisdiction, buyer: Address, category: Category, at: Date)
    requires i < |t|
    ensures LookupSum(t, seller, buyer, category, at)
         == LookupSum([t[i]], seller, buyer, category, at) + LookupSum(t[..i] + t[i + 1..], seller, buyer, category, at)
  {
    SumSplit(t, t[..i + 1], t[i + 1..], seller, buyer, category, at);
    SumSplit(t[..i + 1], t[..i], [t[i]], seller, buyer, category, at);
    SumSplit(t[..i] + t[i + 1..], t[..i], t[i + 1..], seller, buyer, category, at);
  }

  lemma RemoveFromBoth(s: seq<Rate>, t: seq<Rate>, i: nat)
    requires multiset(s) == multiset(t) && s != [] && i < |t| && t[i] == s[0]
    ensures multiset(s[1..]) == multiset(t[..i] + t[i + 1..])
  {
    assert s == [s[0]] + s[1..];
    assert t == t[..i] + ([t[i]] + t[i + 1..]);
    assert multiset(s) == multiset{s[0]} + multiset(s[1..]);
    assert multiset(t) == multiset(t[..i]) + (multiset{t[i]} + multiset(t[i + 1..]));
    assert multiset(t[..i] + t[i + 1..]) == multiset(t[..i]) + multiset(t[i + 1..]);
    assert multiset(s[1..]) == multiset(s) - multiset{s[0]};
  }

  /** A table and any reordering of it give the same rate sum. */
  lemma {:induction false} LookupSumOfPermutation(s: seq<Rate>, t: seq<Rate>, seller: Jurisdiction,
                                                  buyer: Address, category: Category, at: Date)
    requires multiset(s) == multiset(t)
    ensures LookupSum(s, seller, buyer, category, at) == LookupSum(t, seller, buyer, category, at)
    decreases |s|
  {
    if s == [] {
      assert |multiset(t)| == 0;
    } else {
      assert s[0] in multiset(t);
      var i :| 0 <= i < |t| && t[i] == s[0];
      RemoveFromBoth(s, t, i);
      LookupSumOfPermutation(s[1..], t[..i] + t[i + 1..], seller, buyer, category, at);
      PullOut(t, i, seller, buyer, category, at);
      PullOut(s, 0, seller, buyer, category, at);
      assert s[..0] + s[1..] == s[1..];
    }
  }

  lemma SumSplit(whole: seq<Rate>, s: seq<Rate>, t: seq<Rate>, seller: Jurisdiction, buyer: Address,
                 category: Category, at: Date)
    requires whole == s + t
    ensures LookupSum(whole, seller, buyer, category, at)
         == LookupSum(s, seller, buyer, category, at) + LookupSum(t, seller, buyer, category, at)
  {
    LookupAppend(s, t, seller, buyer, category, at);
    SumAppend(Lookup(s, seller, buyer, category, at), Lookup(t, seller, buyer, category, at));
  }

  lemma EmptyLookup(s: seq<Rate>, t: seq<Rate>, seller: Jurisdiction, buyer: Address, category: Category, at: Date)
    requires multiset(s) == multiset(t)
    ensures Lookup(s, seller, buyer, category, at) == [] <==> Lookup(t, seller, buyer, category, at) == []
  {
    forall r
      ensures r in s <==> r in t
    {
      assert r in s <==> r in multiset(s);
      assert r in t <==> r in multiset(t);
    }
    var ls, lt := Lookup(s, seller, buyer, category, at), Lookup(t, seller, buyer, category, at);
    if ls != [] {
      assert ls[0] in lt;
    }
    if lt != [] {
      assert lt[0] in ls;
    }
  }

  /** The order of the rows in the file does not change what is charged or flagged. */
  lemma TableOrderIsIrrelevant(c: Config, table: seq<Rate>, seller: Jurisdiction, buyer: Address,
                               category: Category, base: real, currency: Currency, f: Figures, at: Date)
    requires multiset(table) == multiset(c.table)
    ensures TaxOf(c.(table := table), seller, buyer, category, base, currency, f, at)
         == TaxOf(c, seller, buyer, category, base, currency, f, at)
    ensures NeedsReview(c.(table := table), seller, buyer, category, f) == NeedsReview(c, seller, buyer, category, f)
  {
    LookupSumOfPermutation(table, c.table, seller, buyer, category, at);
    LookupSumOfPermutation(table, c.table, seller, buyer, Standard, at);
    EmptyLookup(table, c.table, seller, buyer, category, at);
    var c' := c.(table := table);
    var picked', picked := PickedRows(c', seller, buyer, category, at), PickedRows(c, seller, buyer, category, at);
    assert SumRates(picked') == SumRates(picked);
    assert IsTaxed(c', seller, buyer, category, f) == IsTaxed(c, seller, buyer, category, f);
    assert SumRates(ChargedRows(c', seller, buyer, category, f, at)) == SumRates(ChargedRows(c, seller, buyer, category, f, at));
  }

  /** Rows that match neither the line's category nor its fallback change nothing, wherever they are put. */
  lemma ForeignRowsAreIrrelevant(c: Config, s: seq<Rate>, extra: seq<Rate>, t: seq<Rate>, seller: Jurisdiction,
                                 buyer: Address, category: Category, base: real, f: Figures, at: Date)
    requires c.table == s + t
    requires forall r :: r in extra ==> !Matches(r, seller, buyer, category, at)
    requires category == Reduced ==> forall r :: r in extra ==> !Matches(r, seller, buyer, Standard, at)
    ensures var c' := c.(table := s + extra + t);
            && ChargedRows(c', seller, buyer, category, f, at) == ChargedRows(c, seller, buyer, category, f, at)
            && RecordedRows(c', seller, buyer, category, f, at) == RecordedRows(c, seller, buyer, category, f, at)
  {
    DropForeign(s, extra, t, seller, buyer, category, at);
    if category == Reduced {
      DropForeign(s, extra, t, seller, buyer, Standard, at);
    }
  }

  lemma {:induction false} NoMatches(rows: seq<Rate>, seller: Jurisdiction, buyer: Address, category: Category, at: Date)
    requires forall r :: r in rows ==> !Matches(r, seller, buyer, category, at)
    ensures Lookup(rows, seller, buyer, category, at) == []
  {
    if rows != [] {
      NoMatches(rows[1..], seller, buyer, category, at);
    }
  }

  lemma DropForeign(s: seq<Rate>, extra: seq<Rate>, t: seq<Rate>, seller: Jurisdiction, buyer: Address,
                    category: Category, at: Date)
    requires forall r :: r in extra ==> !Matches(r, seller, buyer, category, at)
    ensures Lookup(s + extra + t, seller, buyer, category, at) == Lookup(s + t, seller, buyer, category, at)
  {
    LookupAppend(s + extra, t, seller, buyer, category, at);
    LookupAppend(s, extra, seller, buyer, category, at);
    LookupAppend(s, t, seller, buyer, category, at);
    NoMatches(extra, seller, buyer, category, at);
  }

  /** A row says no to a line by one of its own fields: whose it is, where it applies, what it taxes, and when. */
  predicate Declines(row: Rate, seller: Jurisdiction, buyer: Address, category: Category, at: Date) {
    || row.jurisdiction != seller
    || (row.appliesCountry.Some? && !SameText(row.appliesCountry.value, buyer.country))
    || (row.appliesRegion.Some? && (buyer.region.None? || !SameText(row.appliesRegion.value, buyer.region.value)))
    || row.category != category
    || DateBefore(at, row.effectiveFrom)
    || (row.effectiveTo.Some? && DateBefore(row.effectiveTo.value, at))
  }

  /** A row that declines the line, and its standard fallback, changes nothing wherever it is put in the table. */
  lemma DecliningRowChangesNothing(c: Config, s: seq<Rate>, row: Rate, t: seq<Rate>, seller: Jurisdiction,
                                   buyer: Address, category: Category, base: real, currency: Currency,
                                   f: Figures, at: Date)
    requires c.table == s + t && Declines(row, seller, buyer, category, at)
    requires category == Reduced ==> Declines(row, seller, buyer, Standard, at)
    ensures var c' := c.(table := s + [row] + t);
            && TaxOf(c', seller, buyer, category, base, currency, f, at) == TaxOf(c, seller, buyer, category, base, currency, f, at)
            && Ids(RecordedRows(c', seller, buyer, category, f, at)) == Ids(RecordedRows(c, seller, buyer, category, f, at))
            && Advisories(c', seller, buyer, category, f, at) == Advisories(c, seller, buyer, category, f, at)
  {
    hide SameText;
    ForeignRowsAreIrrelevant(c, s, [row], t, seller, buyer, category, base, f, at);
    DropForeign(s, [row], t, seller, buyer, category, at);
    if category == Reduced {
      DropForeign(s, [row], t, seller, buyer, Standard, at);
    }
  }

  lemma LookupOneMore(table: seq<Rate>, row: Rate, seller: Jurisdiction, buyer: Address, category: Category, at: Date)
    ensures Lookup(table + [row], seller, buyer, category, at)
         == Lookup(table, seller, buyer, category, at) + (if Declines(row, seller, buyer, category, at) then [] else [row])
  {
    hide SameText;
    LookupAppend(table, [row], seller, buyer, category, at);
    assert [row][1..] == [];
    assert Lookup([row][1..], seller, buyer, category, at) == [];
  }

  lemma LastRowAddsUp(base: real, rows: seq<Rate>, row: Rate)
    ensures Times(base, SumRates(rows + [row])) == Times(base, SumRates(rows)) + Times(base, row.rate)
    ensures Ids(rows + [row]) == Ids(rows) + [row.id]
  {
    assert (rows + [row])[..|rows|] == rows;
    Distribute(base, SumRates(rows), row.rate);
  }

  /**
   A row that declines nothing of the line adds its own rate of the base and its own id, when the table
   already answers the line in its category: always for standard, zero-rated and exempt lines, and for
   reduced lines once there is a reduced row.
   */
  lemma AcceptingRowAdds(c: Config, row: Rate, seller: Jurisdiction, buyer: Address, category: Category, base: real,
                         f: Figures, at: Date)
    requires !Declines(row, seller, buyer, category, at)
    requires category == Reduced ==> exists r :: r in c.table && !Declines(r, seller, buyer, Reduced, at)
    ensures var c' := c.(table := c.table + [row]);
            && ExactTax(c', seller, buyer, category, base, f, at)
               == ExactTax(c, seller, buyer, category, base, f, at)
                  + (if IsTaxed(c, seller, buyer, category, f) then Times(base, row.rate) else 0.0)
            && Ids(RecordedRows(c', seller, buyer, category, f, at))
               == Ids(RecordedRows(c, seller, buyer, category, f, at))
                  + (if IsTaxed(c, seller, buyer, category, f) || category == ZeroRated || category == Exempt
                     then [row.id] else [])
  {
    hide SumRates, Ids, Times, SameText;
    LookupOneMore(c.table, row, seller, buyer, category, at);
    LastRowAddsUp(base, Lookup(c.table, seller, buyer, category, at), row);
    if category == Reduced {
      ReducedRowFound(c.table, seller, buyer, at);
    }
  }

  lemma ReducedRowFound(table: seq<Rate>, seller: Jurisdiction, buyer: Address, at: Date)
    requires exists r :: r in table && !Declines(r, seller, buyer, Reduced, at)
    ensures Lookup(table, seller, buyer, Reduced, at) != []
  {
    hide SameText;
    var r :| r in table && !Declines(r, seller, buyer, Reduced, at);
    assert r in Lookup(table, seller, buyer, Reduced, at);
  }

  /** The first reduced row takes the place of the standard ones. */
  lemma FirstReducedRowReplaces(c: Config, row: Rate, seller: Jurisdiction, buyer: Address, base: real, f: Figures, at: Date)
    requires IsTaxed(c, seller, buyer, Reduced, f) && !Declines(row, seller, buyer, Reduced, at)
    requires forall r :: r in c.table ==> Declines(r, seller, buyer, Reduced, at)
    ensures var c' := c.(table := c.table + [row]);
            && ExactTax(c', seller, buyer, Reduced, base, f, at) == Times(base, row.rate)
            && Ids(RecordedRows(c', seller, buyer, Reduced, f, at)) == [row.id]
            && ExactTax(c, seller, buyer, Reduced, base, f, at) == ExactTax(c, seller, buyer, Standard, base, f, at)
  {
    hide SameText, SumRates, Ids, Times, Lookup, PickedRows, ChargedRows, RecordedRows, IsTaxed;
    var c' := c.(table := c.table + [row]);
    NoReducedRow(c.table, seller, buyer, at);
    LookupOneMore(c.table, row, seller, buyer, Reduced, at);
    assert [] + [row] == [row];
    ChargedAsPicked(c, c', seller, buyer, f, at);
    ReducedPicks(c, seller, buyer, at);
    ReducedPicks(c', seller, buyer, at);
    LastRowAddsUp(base, [], row);
    NothingSums(base);
  }

  /** Whether a line is taxed does not depend on the table, nor on which of the two taxed categories it has. */
  lemma ChargedAsPicked(c: Config, c': Config, seller: Jurisdiction, buyer: Address, f: Figures, at: Date)
    requires IsTaxed(c, seller, buyer, Reduced, f) && c' == c.(table := c'.table)
    ensures ChargedRows(c', seller, buyer, Reduced, f, at) == PickedRows(c', seller, buyer, Reduced, at)
    ensures RecordedRows(c', seller, buyer, Reduced, f, at) == PickedRows(c', seller, buyer, Reduced, at)
    ensures ChargedRows(c, seller, buyer, Reduced, f, at) == PickedRows(c, seller, buyer, Reduced, at)
    ensures ChargedRows(c, seller, buyer, Standard, f, at) == PickedRows(c, seller, buyer, Standard, at)
  {
    hide PickedRows, ScopeOf, NexusCrossed;
  }

  lemma ReducedPicks(c: Config, seller: Jurisdiction, buyer: Address, at: Date)
    ensures var reduced := Lookup(c.table, seller, buyer, Reduced, at);
            PickedRows(c, seller, buyer, Reduced, at)
            == if reduced == [] then PickedRows(c, seller, buyer, Standard, at) else reduced
  {
    hide Lookup;
  }

  lemma NoReducedRow(table: seq<Rate>, seller: Jurisdiction, buyer: Address, at: Date)
    requires forall r :: r in table ==> Declines(r, seller, buyer, Reduced, at)
    ensures Lookup(table, seller, buyer, Reduced, at) == []
  {
    hide SameText;
    NoMatches(table, seller, buyer, Reduced, at);
  }

  lemma NothingSums(base: real)
    ensures Times(base, SumRates([])) == 0.0 && Ids([]) == []
  {
  }

  lemma {:induction false} SumNonNegative(rows: seq<Rate>)
    requires forall r :: r in rows ==> r.rate >= 0.0
    ensures SumRates(rows) >= 0.0
  {
    if rows != [] {
      SumNonNegative(rows[..|rows| - 1]);
      assert rows[|rows| - 1] in rows;
    }
  }

  /**
   A Quebec seller is at home in CA/QC, a Delaware one in US/DE and an Algerian one in DZ/16. A buyer in
   another country is abroad; one in the same region is local, as is an Algerian one who names none.
   */
  lemma ScopeExactly(seller: Jurisdiction, buyer: Address, country: string, region: string)
    requires (seller, country, region) in [(QuebecCa, "CA", "QC"), (DelawareUs, "US", "DE"), (AlgiersDz, "DZ", "16")]
    ensures ScopeOf(seller, buyer) == Exporting <==> !SameText(buyer.country, country)
    ensures ScopeOf(seller, buyer) == DomesticLocal <==>
              && SameText(buyer.country, country)
              && (if buyer.region.Some? then SameText(buyer.region.value, region) else seller == AlgiersDz)
  {
    hide SameText;
  }

  /** The threshold a state is held to: the one under its uppercase name if there is one, else under its own. */
  predicate HeldTo(nexus: map<string, Threshold>, state: string, t: Threshold) {
    || (Upper(state) in nexus && t == nexus[Upper(state)])
    || (Upper(state) !in nexus && state in nexus && t == nexus[state])
  }

  /** A threshold is met exactly when it is enabled and no limit it sets is left unreached by both figures. */
  lemma NexusExactly(nexus: map<string, Threshold>, buyer: Address, f: Figures)
    ensures NexusCrossed(nexus, buyer, f) <==>
              buyer.region.Some? && exists t ::
                && HeldTo(nexus, buyer.region.value, t) && t.enabled
                && !((t.revenue.Some? || t.txnCount.Some?)
                     && (t.revenue.Some? ==> f.revenue < t.revenue.value)
                     && (t.txnCount.Some? ==> f.txnCount < t.txnCount.value))
  {
    hide Upper;
    if NexusCrossed(nexus, buyer, f) {
      assert HeldTo(nexus, buyer.region.value, NexusOf(nexus, buyer.region.value).value);
    }
  }

  /** Larger nexus figures can only start a charge, never reduce one. */
  lemma GrowsWithFigures(c: Config, seller: Jurisdiction, buyer: Address, category: Category, base: real,
                         currency: Currency, f: Figures, g: Figures, at: Date)
    requires f.revenue <= g.revenue && f.txnCount <= g.txnCount
    requires base >= 0.0 && forall r :: r in c.table ==> r.rate >= 0.0
    ensures TaxOf(c, seller, buyer, category, base, currency, f, at)
         <= TaxOf(c, seller, buyer, category, base, currency, g, at)
    ensures NeedsReview(c, seller, buyer, category, g) ==> NeedsReview(c, seller, buyer, category, f)
  {
    var rows := PickedRows(c, seller, buyer, category, at);
    SumNonNegative(rows);
    ProductNonNegative(base, SumRates(rows));
    assert SumRates([]) == 0.0;
    RoundMonotone(currency, ExactTax(c, seller, buyer, category, base, f, at),
                            ExactTax(c, seller, buyer, category, base, g, at));
  }

  lemma ProductNonNegative(x: real, y: real)
    requires x >= 0.0 && y >= 0.0
    ensures Times(x, y) >= 0.0
  {
  }

  lemma {:induction false} UpperIdempotent(s: string)
    ensures Upper(Upper(s)) == Upper(s)
  {
    if s != "" {
      UpperIdempotent(s[1..]);
      assert Upper(s)[1..] == Upper(s[1..]);
    }
  }

  predicate SameAddress(a: Address, b: Address) {
    && SameText(a.country, b.country)
    && (a.region.Some? <==> b.region.Some?)
    && (a.region.Some? ==> SameText(a.region.value, b.region.value))
  }

  lemma {:induction false} LookupIgnoresCase(table: seq<Rate>, seller: Jurisdiction, a: Address, b: Address,
                                             category: Category, at: Date)
    requires SameAddress(a, b)
    ensures Lookup(table, seller, a, category, at) == Lookup(table, seller, b, category, at)
  {
    if table != [] {
      LookupIgnoresCase(table[1..], seller, a, b, category, at);
    }
  }

  /** Every enabled threshold can be found under the uppercase form of its key. */
  predicate CaseFree(nexus: map<string, Threshold>) {
    forall k :: k in nexus && nexus[k].enabled ==> Upper(k) in nexus
  }

  /** The same, except that no lookup is ever made for the seller's own state. */
  predicate CaseFreeElsewhere(nexus: map<string, Threshold>) {
    forall k :: k in nexus && nexus[k].enabled && Upper(k) != "DE" ==> Upper(k) in nexus
  }

  ghost predicate NexusIgnoresCase(nexus: map<string, Threshold>) {
    forall a, b, f :: SameAddress(a, b) ==> NexusCrossed(nexus, a, f) == NexusCrossed(nexus, b, f)
  }

  ghost predicate ReviewIgnoresCase(c: Config) {
    forall seller, a, b, category, f ::
      SameAddress(a, b) ==> NeedsReview(c, seller, a, category, f) == NeedsReview(c, seller, b, category, f)
  }

  /** Figures that cross a threshold, whatever it asks for. */
  function Crossing(t: Threshold): Figures {
    Figures(if t.revenue.Some? then t.revenue.value else 0.0, if t.txnCount.Some? then t.txnCount.value else 0)
  }

  /** The uppercase spelling of a state whose only key is spelt otherwise finds nothing. */
  lemma OtherSpellingMisses(nexus: map<string, Threshold>, k: string)
    requires k in nexus && nexus[k].enabled && Upper(k) !in nexus
    ensures var a, b := Address("US", Some(k)), Address("US", Some(Upper(k)));
            && SameAddress(a, b)
            && NexusCrossed(nexus, a, Crossing(nexus[k])) && !NexusCrossed(nexus, b, Crossing(nexus[k]))
  {
    hide Upper;
    UpperIdempotent(k);
  }

  lemma CrossingIgnoresCase(nexus: map<string, Threshold>, a: Address, b: Address, f: Figures)
    requires SameAddress(a, b)
    requires a.region.Some? ==>
               forall k :: k in nexus && nexus[k].enabled && SameText(k, a.region.value) ==> Upper(k) in nexus
    ensures NexusCrossed(nexus, a, f) == NexusCrossed(nexus, b, f)
  {
    hide Upper;
  }

  /** The nexus decision ignores the case of the address exactly when every enabled key has its uppercase form. */
  lemma NexusIgnoresCaseExactly(nexus: map<string, Threshold>)
    ensures NexusIgnoresCase(nexus) <==> CaseFree(nexus)
  {
    hide NexusCrossed, Upper;
    if CaseFree(nexus) {
      forall a, b, f | SameAddress(a, b)
        ensures NexusCrossed(nexus, a, f) == NexusCrossed(nexus, b, f)
      {
        CrossingIgnoresCase(nexus, a, b, f);
      }
    } else {
      var k :| k in nexus && nexus[k].enabled && Upper(k) !in nexus;
      OtherSpellingMisses(nexus, k);
    }
  }

  /** And the review flag, for every seller, exactly when every enabled key but Delaware's has it. */
  lemma ReviewIgnoresCaseExactly(c: Config)
    ensures ReviewIgnoresCase(c) <==> CaseFreeElsewhere(c.nexus)
  {
    hide NexusCrossed, NeedsReview, Upper;
    if CaseFreeElsewhere(c.nexus) {
      forall seller, a, b, category, f | SameAddress(a, b)
        ensures NeedsReview(c, seller, a, category, f) == NeedsReview(c, seller, b, category, f)
      {
        ReviewIgnoresCaseAt(c, seller, a, b, category, f);
      }
    } else {
      var k :| k in c.nexus && c.nexus[k].enabled && Upper(k) != "DE" && Upper(k) !in c.nexus;
      var a, b, f := Address("US", Some(k)), Address("US", Some(Upper(k))), Crossing(c.nexus[k]);
      OtherSpellingMisses(c.nexus, k);
      OutOfState(a);
      OutOfState(b);
      ReviewInAnotherState(c, a, f);
      ReviewInAnotherState(c, b, f);
    }
  }

  /** An address in the US with a region other than Delaware. */
  lemma OutOfState(a: Address)
    requires a.country == "US" && a.region.Some? && Upper(a.region.value) != "DE"
    ensures ScopeOf(DelawareUs, a) == DomesticOther
  {
    UpperOfDelaware();
  }

  lemma UpperOfDelaware()
    ensures Upper("DE") == "DE"
  {
    assert "DE"[1..] == "E" && "E"[1..] == "";
  }

  lemma ReviewInAnotherState(c: Config, a: Address, f: Figures)
    requires ScopeOf(DelawareUs, a) == DomesticOther
    ensures NeedsReview(c, DelawareUs, a, Standard, f) == !NexusCrossed(c.nexus, a, f)
  {
  }

  lemma ScopeIgnoresCase(seller: Jurisdiction, a: Address, b: Address)
    requires SameAddress(a, b)
    ensures ScopeOf(seller, a) == ScopeOf(seller, b)
  {
  }

  lemma ReviewIgnoresCaseAt(c: Config, seller: Jurisdiction, a: Address, b: Address, category: Category, f: Figures)
    requires SameAddress(a, b) && CaseFreeElsewhere(c.nexus)
    ensures NeedsReview(c, seller, a, category, f) == NeedsReview(c, seller, b, category, f)
  {
    hide Upper, NexusCrossed;
    ScopeIgnoresCase(seller, a, b);
    if seller == DelawareUs && ScopeOf(seller, a) == DomesticOther {
      UpperOfDelaware();
      CrossingIgnoresCase(c.nexus, a, b, f);
    }
  }

  /**
   On exactly those nexus maps the ASCII case of the buyer's country and region changes nothing of the
   resolver's answer.
   */
  lemma AddressCaseIsIrrelevant(c: Config, seller: Jurisdiction, a: Address, b: Address, category: Category,
                                f: Figures, at: Date)
    requires SameAddress(a, b) && CaseFreeElsewhere(c.nexus)
    ensures ScopeOf(seller, a) == ScopeOf(seller, b)
    ensures NeedsReview(c, seller, a, category, f) == NeedsReview(c, seller, b, category, f)
    ensures ChargedRows(c, seller, a, category, f, at) == ChargedRows(c, seller, b, category, f, at)
    ensures RecordedRows(c, seller, a, category, f, at) == RecordedRows(c, seller, b, category, f, at)
  {
    hide Upper, NeedsReview;
    ScopeIgnoresCase(seller, a, b);
    ReviewIgnoresCaseAt(c, seller, a, b, category, f);
    LookupIgnoresCase(c.table, seller, a, b, category, at);
    LookupIgnoresCase(c.table, seller, a, b, Standard, at);
  }

  /**
   What the flags mean: `review` implies nothing charged and nothing recorded, and a charged line
   records exactly the rows that make up its amount, in table order.
   */
  lemma FlagsExplainTheAmount(r: Resolved, c: Config, seller: Jurisdiction, buyer: Address, category: Category,
                              base: real, currency: Currency, f: Figures, at: Date)
    requires Meets(r, c, seller, buyer, category, base, currency, f, at)
    ensures r.review ==> r.amount == 0.0 && r.ids == []
    ensures r.isExport <==> !SameText(buyer.country, seller.Country())
    ensures r.isExport || category == ZeroRated || category == Exempt ==> r.amount == 0.0
    ensures (category == Standard || category == Reduced) && !r.isExport && !r.review ==>
              var rows := PickedRows(c, seller, buyer, category, at);
              r.amount == currency.Round(Times(base, SumRates(rows))) && r.ids == Ids(rows)
  {
    if ChargedRows(c, seller, buyer, category, f, at) == [] {
      NothingCharged(c, seller, buyer, category, base, currency, f, at);
    }
  }

  /**
   What the advisories mean: a taxed reduced line for which no reduced row was found, a taxed line for
   which no row at all was found, at home or under nexus, and the reason why a line went out for review.
   */
  lemma AdvisoriesExactly(c: Config, seller: Jurisdiction, buyer: Address, category: Category, f: Figures, at: Date)
    ensures var warnings, scope := Advisories(c, seller, buyer, category, f, at), ScopeOf(seller, buyer);
            var taxed := (category == Standard || category == Reduced) && scope != Exporting && !NeedsReview(c, seller, buyer, category, f);
            var ids := Ids(RecordedRows(c, seller, buyer, category, f, at));
            && (ReducedFallsBack in warnings <==>
                  taxed && category == Reduced && forall r :: r in c.table ==> Declines(r, seller, buyer, Reduced, at))
            && (NoRows in warnings <==> taxed && ids == [] && scope == DomesticLocal)
            && (NexusButNoRow in warnings <==> taxed && ids == [] && scope == DomesticOther && seller == DelawareUs)
            && (NoRegion in warnings <==> NeedsReview(c, seller, buyer, category, f) && buyer.region.None?)
            && (NoNexus in warnings <==> NeedsReview(c, seller, buyer, category, f) && buyer.region.Some?)
  {
    hide SameText, NexusCrossed, ScopeOf, Lookup, Ids;
    NoIdsExactly(RecordedRows(c, seller, buyer, category, f, at));
    if forall r :: r in c.table ==> Declines(r, seller, buyer, Reduced, at) {
      NoReducedRow(c.table, seller, buyer, at);
    } else {
      ReducedRowFound(c.table, seller, buyer, at);
    }
  }

  lemma NoIdsExactly(rows: seq<Rate>)
    ensures Ids(rows) == [] <==> rows == []
  {
  }
}
