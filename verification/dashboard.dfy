/**
 * The admin dashboard handler (GET /api/v1/admin/donation): one pass over the
 * donations returned by the store, accumulating the grand total, a running
 * ceiling average and a per-category total table, then flattening that table
 * and emitting a fixed four-entry summary.
 */
module Dashboard {

  /** A donation record, reduced to the two fields the aggregation reads. */
  datatype Donation = Donation(amount: int, category: string)

  /** A JavaScript number as it reaches the JSON response: an integer, or a
      non-finite value (Infinity or NaN, which JSON serialises as null). */
  datatype Num = Int(n: int) | NonFinite

  /** One entry of `additionalData`. */
  datatype Stat = Stat(id: nat, title: string, value: Num)

  /** One entry of the flattened `categoryTotals` array. */
  datatype CategoryTotal = CategoryTotal(title: string, value: int)

  /** The part of the response body the handler computes. */
  datatype Summary = Summary(additionalData: seq<Stat>, categoryTotals: seq<CategoryTotal>, data: seq<Donation>)

  // ---------------------------------------------------------------------------
  // Reference definitions

  /** Sum of `amount` over all donations. */
  function Total(ds: seq<Donation>): int
  {
    if ds == [] then 0 else Total(ds[..|ds| - 1]) + ds[|ds| - 1].amount
  }

  /** The donations whose category is `c`, in their original order. */
  function OfCategory(ds: seq<Donation>, c: string): (r: seq<Donation>)
    ensures |r| <= |ds|
    ensures forall k :: 0 <= k < |r| ==> r[k].category == c
  {
    if ds == [] then []
    else OfCategory(ds[..|ds| - 1], c) + (if ds[|ds| - 1].category == c then [ds[|ds| - 1]] else [])
  }

  /** Sum of `amount` over the donations whose category is `c`. */
  function CategorySum(ds: seq<Donation>, c: string): int
  {
    Total(OfCategory(ds, c))
  }

  /** True when some donation has category `c`. */
  predicate Occurs(ds: seq<Donation>, c: string)
  {
    exists k :: 0 <= k < |ds| && ds[k].category == c
  }

  /** The distinct categories of `ds`, in the order in which each is first seen. */
  function Categories(ds: seq<Donation>): seq<string>
  {
    if ds == [] then []
    else
      var ps := Categories(ds[..|ds| - 1]);
      var c := ds[|ds| - 1].category;
      if c in ps then ps else ps + [c]
  }

  /** No category is listed twice. */
  lemma {:induction false} CategoriesDistinct(ds: seq<Donation>)
    ensures forall i, j :: 0 <= i < j < |Categories(ds)| ==> Categories(ds)[i] != Categories(ds)[j]
  {
    if ds != [] {
      CategoriesDistinct(ds[..|ds| - 1]);
    }
  }

  /** A category is listed exactly when some donation carries it. */
  lemma {:induction false} CategoriesAreThoseThatOccur(ds: seq<Donation>, c: string)
    ensures c in Categories(ds) <==> Occurs(ds, c)
  {
    if ds != [] {
      var p := ds[..|ds| - 1];
      CategoriesAreThoseThatOccur(p, c);
      if Occurs(p, c) {
        var k :| 0 <= k < |p| && p[k].category == c;
        assert ds[k] == p[k];
      }
      if Occurs(ds, c) && ds[|ds| - 1].category != c {
        var k :| 0 <= k < |ds| && ds[k].category == c;
        assert p[k] == ds[k];
      }
    }
  }

  /** The category table the handler builds: one entry per category that occurs. */
  function CategoryTable(ds: seq<Donation>): map<string, int>
  {
    map c | c in Categories(ds) :: CategorySum(ds, c)
  }

  /** `Math.ceil(a / b)` for integers, with `b` positive (Dafny's `/` floors when `b > 0`). */
  function CeilDiv(a: int, b: int): int
    requires b > 0
  {
    -((-a) / b)
  }

  /** `CeilDiv(a, b)` is the least integer `q` with `q * b >= a`. */
  lemma CeilDivIsCeiling(a: int, b: int)
    requires b > 0
    ensures CeilDiv(a, b) * b >= a && (CeilDiv(a, b) - 1) * b < a
  {
  }

  /** The average after the last step of the loop: `Math.ceil(total / totalDoc)`,
      which is non-finite when `totalDoc` is zero. */
  function Average(total: int, totalDoc: nat): (r: Num)
    ensures r.NonFinite? <==> totalDoc == 0
    ensures r.Int? ==> r.n * totalDoc >= total && (r.n - 1) * totalDoc < total
  {
    if totalDoc == 0 then NonFinite
    else
      CeilDivIsCeiling(total, totalDoc);
      Int(CeilDiv(total, totalDoc))
  }

  /** The average the handler reports: it keeps its initial 0 when the loop never runs. */
  function ReportedAverage(ds: seq<Donation>, totalDoc: nat): Num
  {
    if ds == [] then Int(0) else Average(Total(ds), totalDoc)
  }

  /** The grand total after one more donation. */
  lemma TotalExtend(p: seq<Donation>, d: Donation)
    ensures Total(p + [d]) == Total(p) + d.amount
  {
  }

  /** A category's sum after one more donation. */
  lemma CategorySumExtend(p: seq<Donation>, d: Donation, c: string)
    ensures CategorySum(p + [d], c) == CategorySum(p, c) + (if d.category == c then d.amount else 0)
  {
    var ds := p + [d];
    assert ds[..|ds| - 1] == p;
    if d.category == c {
      assert OfCategory(ds, c) == OfCategory(p, c) + [d];
      TotalExtend(OfCategory(p, c), d);
    } else {
      assert OfCategory(ds, c) == OfCategory(p, c);
    }
  }

  /** Every donation picked out by `OfCategory` comes from `ds`. */
  lemma {:induction false} OfCategoryOccurs(ds: seq<Donation>, c: string, k: nat)
    requires k < |OfCategory(ds, c)|
    ensures Occurs(ds, c)
  {
    var p := ds[..|ds| - 1];
    var o := OfCategory(p, c);
    if k < |o| {
      OfCategoryOccurs(p, c, k);
      var j :| 0 <= j < |p| && p[j].category == c;
      assert ds[j] == p[j];
    } else {
      assert ds[|ds| - 1].category == c;
    }
  }

  // ---------------------------------------------------------------------------
  // Pure pieces of the handler

  /** `Object.keys(categoryTotals).map(...)`: one `{title, value}` per key, in key order. */
  function Flatten(keys: seq<string>, table: map<string, int>): (r: seq<CategoryTotal>)
    requires forall k :: k in keys ==> k in table
    ensures |r| == |keys|
    ensures forall i :: 0 <= i < |r| ==> r[i] == CategoryTotal(keys[i], table[keys[i]])
  {
    if keys == [] then []
    else Flatten(keys[..|keys| - 1], table) + [CategoryTotal(keys[|keys| - 1], table[keys[|keys| - 1]])]
  }

  /** The fixed `additionalData` literal. */
  function AdditionalData(users: nat, totalDoc: nat, totalDonation: int, totalAverage: Num): (r: seq<Stat>)
    ensures |r| == 4
    ensures forall i :: 0 <= i < 4 ==> r[i].id == i + 1
    ensures r[0].value == Int(users) && r[1].value == Int(totalDoc)
    ensures r[2].value == Int(totalDonation) && r[3].value == totalAverage
  {
    [ Stat(1, "Total Users", Int(users)),
      Stat(2, "Total Donor", Int(totalDoc)),
      Stat(3, "Total Donation", Int(totalDonation)),
      Stat(4, "Average Donation", totalAverage) ]
  }

  /** The sum of the `value`s of a flattened category array. */
  function ValueSum(ts: seq<CategoryTotal>): int
  {
    if ts == [] then 0 else ValueSum(ts[..|ts| - 1]) + ts[|ts| - 1].value
  }

  /** `keys` and `table` are the key order and the contents of the category
      table built from the donations `ds`. */
  ghost predicate Tracks(keys: seq<string>, table: map<string, int>, ds: seq<Donation>)
  {
    && keys == Categories(ds)
    && (forall c :: c in table <==> c in keys)
    && (forall c :: c in table ==> table[c] == CategorySum(ds, c))
  }

  /** A category the tracking table lacks occurs in no donation. */
  lemma TracksAbsent(keys: seq<string>, table: map<string, int>, ds: seq<Donation>)
    requires Tracks(keys, table, ds)
    ensures forall c :: c !in table ==> !Occurs(ds, c)
  {
    forall c | c !in table ensures !Occurs(ds, c) {
      CategoriesAreThoseThatOccur(ds, c);
    }
  }

  /** Crediting one more donation to a table that tracks `p` gives a table that tracks `p + [d]`. */
  lemma CreditStep(keys: seq<string>, table: map<string, int>, p: seq<Donation>, d: Donation,
                   keys': seq<string>, table': map<string, int>)
    requires Tracks(keys, table, p)
    requires keys' == if d.category in table then keys else keys + [d.category]
    requires d.category in table'
    requires table'[d.category] == (if d.category in table then table[d.category] else 0) + d.amount
    requires forall c :: c != d.category ==> (c in table' <==> c in table)
    requires forall c :: c != d.category && c in table ==> table'[c] == table[c]
    ensures Tracks(keys', table', p + [d])
  {
    CreditKeys(keys, table, p, d, keys');
    CreditDomain(keys, table, d, keys', table');
    TracksAbsent(keys, table, p);
    CreditValues(table, p, d, table');
  }

  /** The key order after crediting `d`. */
  lemma CreditKeys(keys: seq<string>, table: map<string, int>, p: seq<Donation>, d: Donation, keys': seq<string>)
    requires Tracks(keys, table, p)
    requires keys' == if d.category in table then keys else keys + [d.category]
    ensures keys' == Categories(p + [d])
  {
  }

  /** The table's domain after crediting `d`. */
  lemma CreditDomain(keys: seq<string>, table: map<string, int>, d: Donation,
                     keys': seq<string>, table': map<string, int>)
    requires forall c :: c in table <==> c in keys
    requires keys' == if d.category in table then keys else keys + [d.category]
    requires d.category in table'
    requires forall c :: c != d.category ==> (c in table' <==> c in table)
    ensures forall c :: c in table' <==> c in keys'
  {
  }

  /** The table's values after crediting `d`. */
  lemma CreditValues(table: map<string, int>, p: seq<Donation>, d: Donation, table': map<string, int>)
    requires forall c :: c in table ==> table[c] == CategorySum(p, c)
    requires forall c :: c !in table ==> !Occurs(p, c)
    requires d.category in table'
    requires table'[d.category] == (if d.category in table then table[d.category] else 0) + d.amount
    requires forall c :: c != d.category ==> (c in table' <==> c in table)
    requires forall c :: c != d.category && c in table ==> table'[c] == table[c]
    ensures forall c :: c in table' ==> table'[c] == CategorySum(p + [d], c)
  {
    forall c | c in table' ensures table'[c] == CategorySum(p + [d], c) {
      CategorySumExtend(p, d, c);
      if c !in table {
        AbsentCategorySum(p, c);
      }
    }
  }

  /** A category that no donation carries sums to 0. */
  lemma AbsentCategorySum(ds: seq<Donation>, c: string)
    requires !Occurs(ds, c)
    ensures CategorySum(ds, c) == 0
  {
    if OfCategory(ds, c) != [] {
      OfCategoryOccurs(ds, c, 0);
    }
  }

  /** A tracking table is the category table itself. */
  lemma TracksTable(keys: seq<string>, table: map<string, int>, ds: seq<Donation>)
    requires Tracks(keys, table, ds)
    ensures table == CategoryTable(ds)
  {
  }

  // ---------------------------------------------------------------------------
  // What the emitted category array promises

  /** The `categoryTotals` array the handler emits for `ds`. */
  function CategoryArray(ds: seq<Donation>): seq<CategoryTotal>
  {
    Flatten(Categories(ds), CategoryTable(ds))
  }

  /** Sum of the category sums of the categories `cs`. */
  function SumOver(cs: seq<string>, ds: seq<Donation>): int
  {
    if cs == [] then 0 else SumOver(cs[..|cs| - 1], ds) + CategorySum(ds, cs[|cs| - 1])
  }

  /** Summing a flattened table equals summing the category sums it holds. */
  lemma {:induction false} FlattenSum(cs: seq<string>, table: map<string, int>, ds: seq<Donation>)
    requires forall c :: c in cs ==> c in table && table[c] == CategorySum(ds, c)
    ensures ValueSum(Flatten(cs, table)) == SumOver(cs, ds)
  {
    if cs != [] {
      var front := cs[..|cs| - 1];
      FlattenSum(front, table, ds);
      var f := Flatten(front, table);
      var last := CategoryTotal(cs[|cs| - 1], table[cs[|cs| - 1]]);
      assert (f + [last])[..|f|] == f;
    }
  }

  /** One more donation adds its amount to the sum over distinct categories
      exactly when its category is among them. */
  lemma {:induction false} SumOverExtend(cs: seq<string>, p: seq<Donation>, d: Donation)
    requires forall i, j :: 0 <= i < j < |cs| ==> cs[i] != cs[j]
    ensures SumOver(cs, p + [d]) == SumOver(cs, p) + (if d.category in cs then d.amount else 0)
  {
    if cs != [] {
      var front := cs[..|cs| - 1];
      var last := cs[|cs| - 1];
      SumOverExtend(front, p, d);
      CategorySumExtend(p, d, last);
      assert cs == front + [last];
      assert d.category in cs <==> d.category in front || d.category == last;
      assert d.category == last ==> d.category !in front;
    }
  }

  /** The category sums, taken over all categories, add up to the grand total. */
  lemma {:induction false} SumOverCategories(ds: seq<Donation>)
    ensures SumOver(Categories(ds), ds) == Total(ds)
  {
    if ds != [] {
      var p, d := ds[..|ds| - 1], ds[|ds| - 1];
      assert ds == p + [d];
      var cs := Categories(p);
      SumOverCategories(p);
      CategoriesDistinct(p);
      SumOverExtend(cs, p, d);
      TotalExtend(p, d);
      if d.category !in cs {
        var cs' := cs + [d.category];
        assert cs'[..|cs|] == cs;
        CategoriesAreThoseThatOccur(p, d.category);
        AbsentCategorySum(p, d.category);
        CategorySumExtend(p, d, d.category);
      }
    }
  }

  /** The `value`s of the emitted category array add up to `totalDonation`. */
  lemma CategoryArraySumsToTotal(ds: seq<Donation>)
    ensures ValueSum(CategoryArray(ds)) == Total(ds)
  {
    FlattenSum(Categories(ds), CategoryTable(ds), ds);
    SumOverCategories(ds);
  }

  /** Every category that occurs in `ds` appears in the emitted array exactly
      once, no other title appears, and each carries its category's sum. */
  lemma CategoryArrayListsEachCategoryOnce(ds: seq<Donation>)
    ensures forall i, j :: 0 <= i < j < |CategoryArray(ds)| ==> CategoryArray(ds)[i].title != CategoryArray(ds)[j].title
    ensures forall c :: Occurs(ds, c) <==> exists i :: 0 <= i < |CategoryArray(ds)| && CategoryArray(ds)[i].title == c
    ensures forall i :: 0 <= i < |CategoryArray(ds)| ==> CategoryArray(ds)[i].value == CategorySum(ds, CategoryArray(ds)[i].title)
  {
    var cs, r := Categories(ds), CategoryArray(ds);
    CategoriesDistinct(ds);
    forall c ensures Occurs(ds, c) <==> exists i :: 0 <= i < |r| && r[i].title == c {
      CategoriesAreThoseThatOccur(ds, c);
      if c in cs {
        var i :| 0 <= i < |cs| && cs[i] == c;
        assert r[i].title == c;
      }
    }
  }

  /** A category that no donation carries has no entry in the table. */
  lemma CategoryTableHasNoEmptyCategory(ds: seq<Donation>, c: string)
    ensures c in CategoryTable(ds) <==> Occurs(ds, c)
    ensures c in CategoryTable(ds) ==> CategoryTable(ds)[c] == CategorySum(ds, c)
  {
    CategoriesAreThoseThatOccur(ds, c);
  }

  /** The reported average: 0 when there is no donation, non-finite when the
      count is 0, and otherwise the least integer not below `total / totalDoc`. */
  lemma ReportedAverageIsCeiling(ds: seq<Donation>, totalDoc: nat)
    ensures ds == [] ==> ReportedAverage(ds, totalDoc) == Int(0)
    ensures ds != [] && totalDoc == 0 ==> ReportedAverage(ds, totalDoc) == NonFinite
    ensures ds != [] && totalDoc > 0 ==>
      && ReportedAverage(ds, totalDoc).Int?
      && ReportedAverage(ds, totalDoc).n * totalDoc >= Total(ds)
      && (ReportedAverage(ds, totalDoc).n - 1) * totalDoc < Total(ds)
  {
  }

  /** Three donations, two of them in one category: the totals, the category
      array and the rounded-up average the dashboard reports. */
  lemma ThreeDonationExample()
    ensures var ds := [Donation(10, "A"), Donation(20, "A"), Donation(30, "B")];
      && Total(ds) == 60
      && CategoryArray(ds) == [CategoryTotal("A", 30), CategoryTotal("B", 30)]
      && ReportedAverage(ds, 3) == Int(20)
  {
    var ds := [Donation(10, "A"), Donation(20, "A"), Donation(30, "B")];
    var d1, d2 := ds[..1], ds[..2];
    assert d2[..1] == d1 && ds[..2] == d2 && d1[..0] == [];
    assert Categories(d1) == ["A"];
    assert Categories(d2) == ["A"];
    assert "B" != "A";
    assert Categories(ds) == ["A", "B"];
    assert d1 == [] + [ds[0]] && d2 == d1 + [ds[1]] && ds == d2 + [ds[2]];
    CategorySumExtend([], ds[0], "A");
    CategorySumExtend(d1, ds[1], "A");
    CategorySumExtend(d2, ds[2], "A");
    CategorySumExtend([], ds[0], "B");
    CategorySumExtend(d1, ds[1], "B");
    CategorySumExtend(d2, ds[2], "B");
    CategoryArraySumsToTotal(ds);
  }

  // ---------------------------------------------------------------------------
  // The handler's loop

  /**
   * The dashboard handler over the donations the store returned (`result`),
   * the donation count `totalDoc` and the user count `users`.
   */
  method Summarize(result: seq<Donation>, totalDoc: nat, users: nat) returns (s: Summary)
    ensures s.data == result
    ensures s.additionalData == AdditionalData(users, totalDoc, Total(result), ReportedAverage(result, totalDoc))
    ensures s.categoryTotals == CategoryArray(result)
  {
    var totalAverage: Num := Int(0);
    var totalDonation := 0;
    var categoryTotals: map<string, int> := map[];
    var keys: seq<string> := [];   // key order of the JavaScript object: first insertion

    for i := 0 to |result|
      invariant totalDonation == Total(result[..i])
      invariant totalAverage == ReportedAverage(result[..i], totalDoc)
      invariant Tracks(keys, categoryTotals, result[..i])
    {
      var item := result[i];
      assert result[..i + 1] == result[..i] + [item];
      TotalExtend(result[..i], item);
      totalDonation := item.amount + totalDonation;
      totalAverage := Average(totalDonation, totalDoc);

      // `!categoryTotals[c]`: the key is absent, or its running total is a falsy 0
      ghost var keys0, table0 := keys, categoryTotals;
      if item.category !in categoryTotals || categoryTotals[item.category] == 0 {
        if item.category !in categoryTotals {
          keys := keys + [item.category];
        }
        categoryTotals := categoryTotals[item.category := 0];
      }
      categoryTotals := categoryTotals[item.category := categoryTotals[item.category] + item.amount];
      CreditStep(keys0, table0, result[..i], item, keys, categoryTotals);
    }
    assert result[..|result|] == result;
    TracksTable(keys, categoryTotals, result);

    var categoryArray := Flatten(keys, categoryTotals);
    var additionalData := AdditionalData(users, totalDoc, totalDonation, totalAverage);
    s := Summary(additionalData, categoryArray, result);
  }
}
