/** The two evaluators of a gate's assertion list against its required identifiers. The required list
    is a parameter; the gates' own lists repeat no identifier. */
module Assertions {
  import opened Collections

  /** The value under "id": no such key, a string, or another object with the given str(). */
  datatype Id = Absent | Text(text: string) | Other(shown: string)

  /** `passed` says that the value under "passed" is True itself. */
  datatype Item = Item(id: Id, passed: bool)

  datatype Evaluation = Evaluation(
    missing: nat, extra: nat, duplicate: nat, reordered: bool,
    exactInventory: bool, passed: nat, overallPass: bool)

  function Name17(id: Id): string {
    if id.Text? then id.text else "<invalid>"
  }

  function Name19(id: Id): string {
    match id
    case Absent => ""
    case Text(text) => text
    case Other(shown) => shown
  }

  function Names(items: seq<Item>, name: Id -> string): (names: seq<string>)
    ensures |names| == |items|
    ensures forall i :: 0 <= i < |items| ==> names[i] == name(items[i].id)
  {
    seq(|items|, i requires 0 <= i < |items| => name(items[i].id))
  }

  function Missing(required: seq<string>, names: seq<string>): nat {
    Count(required, (n: string) => n !in names)
  }

  function Extra(required: seq<string>, names: seq<string>): nat {
    Count(names, (n: string) => n !in required)
  }

  /** `sum(max(0, count - 1) for count in counts.values())`, over the keys of the Counter. */
  function Excess(counts: multiset<string>, keys: seq<string>): nat {
    if keys == [] then 0
    else
      var count := counts[keys[|keys| - 1]];
      Excess(counts, keys[..|keys| - 1]) + if count >= 1 then count - 1 else 0
  }

  function CounterDuplicate(names: seq<string>): nat {
    Excess(multiset(names), FirstOccurrences(names))
  }

  /** `len(names) - len(set(names))`. */
  function SetDuplicate(names: seq<string>): int {
    |names| - |Elements(names)|
  }

  function Evaluate17(required: seq<string>, items: seq<Item>): Evaluation {
    var names := Names(items, Name17);
    var missing, extra, duplicate := Missing(required, names), Extra(required, names), CounterDuplicate(names);
    var exact := names == required;
    var passed := Count(items, (item: Item) => item.id.Text? && item.id.text in required && item.passed);
    Evaluation(missing, extra, duplicate,
               missing == 0 && extra == 0 && duplicate == 0 && names != required,
               exact, passed, exact && passed == |required|)
  }

  /** `failed` is empty exactly when no row failed. */
  function Evaluate19(required: seq<string>, items: seq<Item>): Evaluation {
    ElementsOfSeq(Names(items, Name19));
    var names := Names(items, Name19);
    var missing, extra, duplicate := Missing(required, names), Extra(required, names), SetDuplicate(names);
    var exact := names == required && duplicate == 0;
    Evaluation(missing, extra, duplicate,
               missing == 0 && extra == 0 && duplicate == 0 && names != required,
               exact, Count(items, (item: Item) => item.passed),
               exact && Count(items, (item: Item) => !item.passed) == 0)
  }

  // ----- the verdicts -----

  predicate AllPassed(items: seq<Item>) {
    forall i :: 0 <= i < |items| ==> items[i].passed
  }

  /** NYAY-17: the list itself, each identifier a string and each row passed; even when "<invalid>" is
      among the required identifiers, since a row counts as passed by its raw identifier. */
  lemma PassExactly17(required: seq<string>, items: seq<Item>)
    ensures Evaluate17(required, items).overallPass <==>
            |items| == |required| && AllPassed(items)
            && forall i :: 0 <= i < |items| ==> items[i].id == Text(required[i])
  {
    var names := Names(items, Name17);
    CountExtremes(items, (item: Item) => item.id.Text? && item.id.text in required && item.passed);
    if |items| == |required| && forall i :: 0 <= i < |items| ==> items[i].id == Text(required[i]) {
      assert names == required;
      assert forall i :: 0 <= i < |items| ==> items[i].id.text in required;
    }
    if names == required {
      assert forall i :: 0 <= i < |items| ==> names[i] == required[i];
    }
  }

  /** NYAY-19: the list of str() spellings, each row passed. */
  lemma PassExactly19(required: seq<string>, items: seq<Item>)
    requires Distinct(required)
    ensures Evaluate19(required, items).overallPass <==>
            Names(items, Name19) == required && AllPassed(items)
  {
    ElementsOfSeq(Names(items, Name19));
    CountExtremes(items, (item: Item) => !item.passed);
  }

  /** Whatever the NYAY-17 evaluator passes the NYAY-19 evaluator passes; the converse fails exactly on a
      list holding an identifier that is not a string but is spelled like the required one. */
  lemma EvaluatorsDifferExactly(required: seq<string>, items: seq<Item>)
    requires Distinct(required)
    ensures Evaluate17(required, items).overallPass <==>
            && Evaluate19(required, items).overallPass
            && forall i :: 0 <= i < |items| ==> items[i].id.Text?
  {
    PassExactly17(required, items);
    PassExactly19(required, items);
    var names := Names(items, Name19);
    if forall i :: 0 <= i < |items| ==> items[i].id.Text? {
      assert forall i :: 0 <= i < |items| ==> names[i] == items[i].id.text;
    }
  }

  /** An identifier that is another object spelled like the required one passes NYAY-19 alone. */
  lemma SpelledAlikePasses19Only()
    ensures var items := [Item(Other("a"), true)];
            Evaluate19(["a"], items).overallPass && !Evaluate17(["a"], items).overallPass
  {
    var items := [Item(Other("a"), true)];
    PassExactly17(["a"], items);
    PassExactly19(["a"], items);
    assert Names(items, Name19) == ["a"];
    assert items[0].id == Other("a");
  }

  // ----- the inventory failures -----

  /** Both counts of repetitions are the same number, on every list. */
  lemma {:induction false} DuplicatesAgree(names: seq<string>)
    ensures CounterDuplicate(names) == SetDuplicate(names)
  {
    if names == [] {
      assert Elements(names) == {};
    } else {
      var init, last := names[..|names| - 1], names[|names| - 1];
      DuplicatesAgree(init);
      assert names == init + [last];
      var keys := FirstOccurrences(init);
      assert Elements(names) == Elements(init) + {last};
      assert multiset(names) == multiset(init) + multiset{last};
      if last in keys {
        assert Elements(names) == Elements(init);
        ExcessGrows(multiset(init), keys, last);
      } else {
        assert last !in init;
        ExcessGrows(multiset(init), keys, last);
        assert (keys + [last])[..|keys|] == keys;
      }
    }
  }

  lemma {:induction false} ExcessGrows(counts: multiset<string>, keys: seq<string>, x: string)
    requires Distinct(keys)
    requires forall n :: n in keys ==> n in counts
    ensures Excess(counts + multiset{x}, keys) == Excess(counts, keys) + if x in keys then 1 else 0
  {
    if keys != [] {
      var init, last := keys[..|keys| - 1], keys[|keys| - 1];
      assert keys == init + [last];
      assert last !in init;
      ExcessGrows(counts, init, x);
    }
  }

  lemma PermutationElements(required: seq<string>, names: seq<string>)
    requires multiset(names) == multiset(required)
    ensures |names| == |required| && Elements(names) == Elements(required)
    ensures forall n :: n in names <==> n in required
  {
    assert |names| == |multiset(names)| == |multiset(required)| == |required|;
    assert forall n :: n in names <==> n in multiset(names);
    assert forall n :: n in required <==> n in multiset(required);
  }

  /** Nothing missing, extra or repeated says exactly that the list is a permutation of the required one. */
  lemma CleanInventoryIsPermutation(required: seq<string>, names: seq<string>)
    requires Distinct(required)
    ensures Missing(required, names) == 0 && Extra(required, names) == 0 && SetDuplicate(names) == 0 <==>
            multiset(names) == multiset(required)
  {
    CountExtremes(required, (n: string) => n !in names);
    CountExtremes(names, (n: string) => n !in required);
    ElementsOfSeq(names);
    if multiset(names) == multiset(required) {
      PermutationElements(required, names);
      ElementsOfSeq(required);
    } else if Distinct(names) {
      DistinctCounts(names);
      DistinctCounts(required);
      assert exists n :: multiset(names)[n] != multiset(required)[n];
    }
  }

  lemma {:induction false} DistinctCounts(s: seq<string>)
    requires Distinct(s)
    ensures forall n :: multiset(s)[n] == if n in s then 1 else 0
  {
    if s != [] {
      var init, last := s[..|s| - 1], s[|s| - 1];
      DistinctCounts(init);
      assert s == init + [last];
    }
  }

  /** In either evaluator the inventory is exact, or exactly the failures say why: `reordered` is a
      permutation in another order, and it excludes the other three. */
  lemma FailuresExplain(required: seq<string>, items: seq<Item>, nyay19: bool)
    requires Distinct(required)
    ensures var e := if nyay19 then Evaluate19(required, items) else Evaluate17(required, items);
            var names := Names(items, if nyay19 then Name19 else Name17);
            && (e.exactInventory <==> e.missing == 0 && e.extra == 0 && e.duplicate == 0 && !e.reordered)
            && (e.reordered <==> multiset(names) == multiset(required) && names != required)
  {
    var names := Names(items, if nyay19 then Name19 else Name17);
    DuplicatesAgree(names);
    CleanInventoryIsPermutation(required, names);
  }
}
