/** The fixed catalogue of action types (src/lib/actionLibrary.ts): fourteen
    library items keyed by id, a category per id, and the lookups the builder
    uses. The table is kept as the source declares it, a list of key/item
    entries in declaration order (the order `Object.values` returns). */
module ActionLibrary {
  import opened Types
  import Seqs

  datatype ActionCategory = Onboarding | Assessments | TrainingPlan | Other

  /** `ACTION_LIBRARY`. */
  const LibraryTable: seq<(string, ActionLibraryItem)> := [
    ("A01", ActionLibraryItem("A01", "EGYM Account created", "EGYM_ACCOUNT_CREATED", Occurrence,
                             [Bma, FitHub, TrainerApp, SmartStrength, UnknownProduct], true, true)),
    ("A02", ActionLibraryItem("A02", "Check-In done", "CHECKIN_DONE", Occurrence,
                             [UnknownProduct], false, false)),
    ("A03", ActionLibraryItem("A03", "Strength test done", "STRENGTH_TEST_DONE", Counter,
                             [SmartStrength, TrainerApp, Bma], true, false)),
    ("A04", ActionLibraryItem("A04", "Flexibility test done", "FLEXIBILITY_TEST_DONE", Counter,
                             [FitHub, TrainerApp, Bma], true, false)),
    ("A05", ActionLibraryItem("A05", "Training plan created", "TRAINING_PLAN_CREATED", Occurrence,
                             [Bma, TrainerApp], true, true)),
    ("A06", ActionLibraryItem("A06", "Training plan expired", "TRAINING_PLAN_EXPIRED", Occurrence,
                             [Bma, TrainerApp], false, false)),
    ("A07", ActionLibraryItem("A07", "BioAge calculated", "BIOAGE_CALCULATED", Occurrence,
                             [FitHub, Bma, TrainerApp], true, false)),
    ("A08", ActionLibraryItem("A08", "Trial started", "TRIAL_STARTED", Occurrence,
                             [TrainerApp, SmartStrength, FitHub, Bma], false, false)),
    ("A09", ActionLibraryItem("A09", "Trial ended", "TRIAL_ENDED", Occurrence,
                             [Bma, TrainerApp], false, false)),
    ("A10", ActionLibraryItem("A10", "RFID linked", "RFID_LINKED", Occurrence,
                             [FitHub, TrainerApp, Bma, SmartStrength], true, true)),
    ("A11", ActionLibraryItem("A11", "NFC created", "NFC_CREATED", Occurrence,
                             [Bma, TrainerApp], true, false)),
    ("A12", ActionLibraryItem("A12", "Fitness Goals defined", "FITNESS_GOALS_DEFINED", Occurrence,
                             [Bma, FitHub, TrainerApp], true, true)),
    ("A13", ActionLibraryItem("A13", "Workout tracked", "WORKOUT_TRACKED", Counter,
                             [SmartStrength, Bma, TrainerApp], false, false)),
    ("A14", ActionLibraryItem("A14", "Machine settings created", "MACHINE_SETTINGS_CREATED", Occurrence,
                             [FitHub, TrainerApp], true, true))
  ]

  /** `ACTION_CATEGORIES`. */
  const CategoryTable: seq<(string, ActionCategory)> := [
    ("A01", Onboarding),
    ("A10", Onboarding),
    ("A11", Onboarding),
    ("A14", Onboarding),
    ("A03", Assessments),
    ("A04", Assessments),
    ("A07", Assessments),
    ("A12", TrainingPlan),
    ("A05", TrainingPlan),
    ("A06", TrainingPlan),
    ("A13", TrainingPlan),
    ("A02", Other),
    ("A08", Other),
    ("A09", Other)
  ]

  /** The value of the first entry with `key`, as a JavaScript object lookup. */
  function Lookup<V>(table: seq<(string, V)>, key: string): (r: Option<V>)
    ensures r.None? <==> forall i :: 0 <= i < |table| ==> table[i].0 != key
    ensures r.Some? ==> exists i :: 0 <= i < |table| && table[i] == (key, r.value)
  {
    if |table| == 0 then None
    else if table[0].0 == key then Some(table[0].1)
    else
      var r := Lookup(table[1..], key);
      assert r.Some? ==> exists i :: 1 <= i < |table| && table[i] == (key, r.value) by {
        if r.Some? {
          var j :| 0 <= j < |table[1..]| && table[1..][j] == (key, r.value);
          assert table[j + 1] == (key, r.value);
        }
      }
      r
  }

  predicate DistinctKeys<V>(table: seq<(string, V)>) {
    forall i, j :: 0 <= i < j < |table| ==> table[i].0 != table[j].0
  }

  /** With distinct keys, looking up an entry's key finds that entry. */
  lemma {:induction false} LookupOfEntry<V>(table: seq<(string, V)>, i: nat)
    requires DistinctKeys(table) && i < |table|
    ensures Lookup(table, table[i].0) == Some(table[i].1)
  {
    if i > 0 {
      assert table[0].0 != table[i].0;
      assert table[1..][i - 1] == table[i];
      LookupOfEntry(table[1..], i - 1);
    }
  }

  /** `getActionLibraryItem`. */
  function GetActionLibraryItem(id: string): (r: Option<ActionLibraryItem>)
    ensures r.Some? ==> r.value.id == id && r.value in GetAllActionLibraryItems()
  {
    LibraryTableWellFormed();
    var r := Lookup(LibraryTable, id);
    assert r.Some? ==> r.value in GetAllActionLibraryItems() by {
      if r.Some? {
        var i :| 0 <= i < |LibraryTable| && LibraryTable[i] == (id, r.value);
        assert GetAllActionLibraryItems()[i] == r.value;
      }
    }
    r
  }

  /** `getAllActionLibraryItems`: the items in declaration order. */
  function GetAllActionLibraryItems(): (r: seq<ActionLibraryItem>)
    ensures |r| == |LibraryTable| && forall i :: 0 <= i < |r| ==> r[i] == LibraryTable[i].1
  {
    seq(|LibraryTable|, i requires 0 <= i < |LibraryTable| => LibraryTable[i].1)
  }

  /** There are fourteen entries, each stored under its own id, with distinct keys. */
  lemma LibraryTableWellFormed()
    ensures |LibraryTable| == 14
    ensures forall i :: 0 <= i < |LibraryTable| ==> LibraryTable[i].0 == LibraryTable[i].1.id
    ensures DistinctKeys(LibraryTable)
  {
  }

  /** Every library item can be looked up by its id. */
  lemma EveryItemFound(item: ActionLibraryItem)
    requires item in GetAllActionLibraryItems()
    ensures GetActionLibraryItem(item.id) == Some(item)
  {
    LibraryTableWellFormed();
    var i :| 0 <= i < |LibraryTable| && LibraryTable[i].1 == item;
    LookupOfEntry(LibraryTable, i);
  }

  /** Only A03, A04 and A13 count repetitions; every other item completes on one event. */
  lemma CounterItems(item: ActionLibraryItem)
    requires item in GetAllActionLibraryItems()
    ensures item.completionMode == Counter <==> item.id == "A03" || item.id == "A04" || item.id == "A13"
  {
  }

  /** `getActionLibraryItemsByProduct`: the items supporting `product`, in table order. */
  function GetActionLibraryItemsByProduct(product: Product): (r: seq<ActionLibraryItem>)
    ensures forall item :: item in r <==> item in GetAllActionLibraryItems() && product in item.supportedProducts
  {
    Seqs.Filter(GetAllActionLibraryItems(), (item: ActionLibraryItem) => product in item.supportedProducts)
  }

  /** The items for a product come in table order: two of them, in result
      order, sit in the table in the same order. */
  lemma ByProductInTableOrder(product: Product, i: nat, j: nat)
    requires i < j < |GetActionLibraryItemsByProduct(product)|
    ensures var r := GetActionLibraryItemsByProduct(product);
            exists a, b :: 0 <= a < b < |GetAllActionLibraryItems()|
              && GetAllActionLibraryItems()[a] == r[i] && GetAllActionLibraryItems()[b] == r[j]
  {
    Seqs.FilterKeepsOrder(GetAllActionLibraryItems(), (item: ActionLibraryItem) => product in item.supportedProducts, i, j);
  }

  /** `getActionCategory`: the mapped category, `Other` for an unknown id. */
  function GetActionCategory(actionId: string): (r: ActionCategory)
    ensures Lookup(CategoryTable, actionId).None? ==> r == Other
    ensures Lookup(CategoryTable, actionId).Some? ==> r == Lookup(CategoryTable, actionId).value
  {
    match Lookup(CategoryTable, actionId)
    case Some(c) => c
    case None => Other
  }

  /** Every library item has an explicit category, so the `Other` fallback only
      serves ids outside the library. */
  lemma EveryItemCategorised(item: ActionLibraryItem)
    requires item in GetAllActionLibraryItems()
    ensures Lookup(CategoryTable, item.id).Some?
  {
    var i :| 0 <= i < |LibraryTable| && LibraryTable[i].1 == item;
    var j := [0, 11, 4, 5, 8, 9, 6, 12, 13, 1, 2, 7, 10, 3][i];
    assert CategoryTable[j].0 == item.id;
  }

  const AllCategories: set<ActionCategory> := {Onboarding, Assessments, TrainingPlan, Other}

  lemma CategoryKnown(c: ActionCategory)
    ensures c in AllCategories
  {
  }

  /** The items of `items` in category `c`, in order. */
  function InCategory(items: seq<ActionLibraryItem>, c: ActionCategory): (r: seq<ActionLibraryItem>)
    ensures forall x :: x in r <==> x in items && GetActionCategory(x.id) == c
  {
    if |items| == 0 then []
    else
      var last := items[|items| - 1];
      assert forall x :: x in items <==> x in items[..|items| - 1] || x == last by {
        assert items == items[..|items| - 1] + [last];
      }
      InCategory(items[..|items| - 1], c) + (if GetActionCategory(last.id) == c then [last] else [])
  }

  /** The four category lists together are as long as the list they split. */
  lemma {:induction false} CategorySizes(items: seq<ActionLibraryItem>)
    ensures |InCategory(items, Onboarding)| + |InCategory(items, Assessments)|
          + |InCategory(items, TrainingPlan)| + |InCategory(items, Other)| == |items|
  {
    if |items| > 0 {
      CategorySizes(items[..|items| - 1]);
    }
  }

  /** The `forEach` of `getActionsByCategory`: each item pushed onto its category's list. */
  method GroupByCategory(items: seq<ActionLibraryItem>) returns (categories: map<ActionCategory, seq<ActionLibraryItem>>)
    ensures categories.Keys == AllCategories
    ensures forall c :: c in categories ==> categories[c] == InCategory(items, c)
  {
    categories := map[Onboarding := [], Assessments := [], TrainingPlan := [], Other := []];
    var i := 0;
    assert items[..0] == [];
    while i < |items|
      invariant 0 <= i <= |items|
      invariant categories.Keys == AllCategories
      invariant forall c :: c in categories ==> categories[c] == InCategory(items[..i], c)
    {
      var item := items[i];
      var category := GetActionCategory(item.id);
      CategoryKnown(category);
      assert items[..i + 1][..i] == items[..i];
      categories := categories[category := categories[category] + [item]];
      i := i + 1;
    }
    assert items[..i] == items;
  }

  /** `getActionsByCategory`. */
  method GetActionsByCategory() returns (categories: map<ActionCategory, seq<ActionLibraryItem>>)
    ensures categories.Keys == AllCategories
    ensures forall c :: c in categories ==> categories[c] == InCategory(GetAllActionLibraryItems(), c)
  {
    categories := GroupByCategory(GetAllActionLibraryItems());
  }

  /** Every library item lands in exactly one list, the one its category names,
      and the four lists hold the fourteen items. */
  lemma CategoriesPartition(categories: map<ActionCategory, seq<ActionLibraryItem>>, item: ActionLibraryItem)
    requires categories.Keys == AllCategories
    requires forall c :: c in categories ==> categories[c] == InCategory(GetAllActionLibraryItems(), c)
    ensures item in GetAllActionLibraryItems() ==>
              forall c :: c in categories ==> (item in categories[c] <==> c == GetActionCategory(item.id))
    ensures |categories[Onboarding]| + |categories[Assessments]| + |categories[TrainingPlan]|
          + |categories[Other]| == 14
  {
    CategorySizes(GetAllActionLibraryItems());
    CategoryKnown(GetActionCategory(item.id));
  }
}
