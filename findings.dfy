/**
 * `extract_with_regex`: the four finding strings computed from a cleaned
 * transcript. Each is a `', '.join` of some of the pattern matches, and the
 * empty string when there are none.
 *
 * Phones and car models are joined from a Python `set`, whose iteration
 * order is not fixed; the model states that the result is the join of SOME
 * enumeration of the set (each element once, in any order).
 */
module Regex {
  import opened Chars
  import opened Patterns

  // ---------------------------------------------------------------------
  // ', '.join and its inverse str.split(', ')

  /** `', '.join(xs)`. */
  function Join(xs: seq<string>): (r: string)
    ensures xs != [] && xs[0] != [] ==> r != []
  {
    if xs == [] then ""
    else if |xs| == 1 then xs[0]
    else xs[0] + ", " + Join(xs[1..])
  }

  /** Appending one more item adds the separator and the item. */
  lemma {:induction false} JoinSnoc(xs: seq<string>, x: string)
    requires xs != []
    ensures Join(xs + [x]) == Join(xs) + ", " + x
    decreases |xs|
  {
    if |xs| == 1 {
      assert xs + [x] == [xs[0], x];
      assert [xs[0], x][1..] == [x];
    } else {
      assert (xs + [x])[1..] == xs[1..] + [x];
      JoinSnoc(xs[1..], x);
    }
  }

  /** A join of non-empty items is empty exactly when there are no items. */
  lemma JoinEmpty(xs: seq<string>)
    requires forall i :: 0 <= i < |xs| ==> xs[i] != []
    ensures Join(xs) == "" <==> xs == []
  {
  }

  /** `s.split(', ')`: the pieces between the leftmost separators. */
  function Split(s: string): (r: seq<string>)
    ensures |r| >= 1
    decreases |s|
  {
    if s == [] then [""]
    else if |s| >= 2 && s[0] == ',' && s[1] == ' ' then [""] + Split(s[2..])
    else
      var rest := Split(s[1..]);
      [[s[0]] + rest[0]] + rest[1..]
  }

  /** A comma-free prefix is glued to the first piece of what follows it. */
  lemma {:induction false} SplitPlain(a: string, rest: string)
    requires CommaFree(a)
    ensures Split(a + rest) == [a + Split(rest)[0]] + Split(rest)[1..]
    decreases |a|
  {
    if a == [] {
      assert a + rest == rest;
      assert a + Split(rest)[0] == Split(rest)[0];
      assert Split(rest) == [Split(rest)[0]] + Split(rest)[1..];
    } else {
      assert (a + rest)[0] == a[0] && a[0] != ',';
      assert (a + rest)[1..] == a[1..] + rest;
      SplitPlain(a[1..], rest);
      assert [a[0]] + (a[1..] + Split(rest)[0]) == a + Split(rest)[0];
    }
  }

  /** Splitting a join of comma-free items gives the items back. */
  lemma {:induction false} SplitJoin(xs: seq<string>)
    requires xs != []
    requires forall i :: 0 <= i < |xs| ==> CommaFree(xs[i])
    ensures Split(Join(xs)) == xs
    decreases |xs|
  {
    if |xs| == 1 {
      SplitPlain(xs[0], "");
      assert xs[0] + "" == xs[0];
    } else {
      var tail := ", " + Join(xs[1..]);
      assert Join(xs) == xs[0] + tail;
      SplitPlain(xs[0], tail);
      assert tail[2..] == Join(xs[1..]);
      SplitJoin(xs[1..]);
      assert Split(tail) == [""] + xs[1..];
      assert xs[0] + "" == xs[0];
      assert xs == [xs[0]] + xs[1..];
    }
  }

  // ---------------------------------------------------------------------
  // ', '.join(set(xs))

  /** `order` lists every element of `items` exactly once (the iteration order of `set(items)`). */
  ghost predicate IsEnumeration(order: seq<string>, items: seq<string>) {
    && (forall x :: x in order <==> x in items)
    && (forall i, j :: 0 <= i < j < |order| ==> order[i] != order[j])
  }

  /**
   * `', '.join(set(xs))`: the distinct items of `xs`, joined in the order
   * in which the set yields them, which the model leaves open.
   */
  method JoinSet(xs: seq<string>) returns (r: string, ghost order: seq<string>)
    ensures IsEnumeration(order, xs)
    ensures r == Join(order)
  {
    var remaining := set x | x in xs;
    var first := true;
    r, order := "", [];
    while remaining != {}
      invariant first <==> order == []
      invariant forall x :: x in order || x in remaining <==> x in xs
      invariant forall x :: x in order ==> x !in remaining
      invariant forall i, j :: 0 <= i < j < |order| ==> order[i] != order[j]
      invariant r == Join(order)
      decreases |remaining|
    {
      var x :| x in remaining;
      if first {
        r := x;
        first := false;
      } else {
        JoinSnoc(order, x);
        r := r + ", " + x;
      }
      order := order + [x];
      remaining := remaining - {x};
    }
  }

  /** An enumeration of a set of non-empty strings joins to "" exactly when the set is empty. */
  lemma EnumerationJoinEmpty(order: seq<string>, items: seq<string>)
    requires IsEnumeration(order, items)
    requires forall x :: x in items ==> x != []
    ensures Join(order) == "" <==> items == []
  {
    assert forall i :: 0 <= i < |order| ==> order[i] in items;
    JoinEmpty(order);
    if order != [] {
      assert order[0] in items;
    }
    if items != [] {
      assert items[0] in order;
    }
  }

  /** Splitting the join of an enumeration of comma-free strings gives the enumeration back. */
  lemma EnumerationSplit(order: seq<string>, items: seq<string>)
    requires IsEnumeration(order, items) && items != []
    requires forall x :: x in items ==> CommaFree(x)
    ensures Split(Join(order)) == order
  {
    assert items[0] in order;
    assert forall i :: 0 <= i < |order| ==> order[i] in items;
    SplitJoin(order);
  }

  /** `text` is `', '.join(set(xs))` for some iteration order of the set. */
  ghost predicate JoinsSetOf(text: string, xs: seq<string>) {
    exists order :: IsEnumeration(order, xs) && text == Join(order)
  }

  /**
   * What a joined set of non-empty, comma-free strings says: it is empty
   * exactly when there are no items, and otherwise splitting it gives each
   * item exactly once.
   */
  lemma JoinedSetFacts(text: string, xs: seq<string>)
    requires JoinsSetOf(text, xs)
    requires forall i :: 0 <= i < |xs| ==> xs[i] != [] && CommaFree(xs[i])
    ensures text == "" <==> xs == []
    ensures text != "" ==>
      && (forall x :: x in Split(text) <==> x in xs)
      && (forall i, j :: 0 <= i < j < |Split(text)| ==> Split(text)[i] != Split(text)[j])
  {
    var order :| IsEnumeration(order, xs) && text == Join(order);
    EnumerationJoinEmpty(order, xs);
    if xs != [] {
      EnumerationSplit(order, xs);
    }
  }

  // ---------------------------------------------------------------------
  // Car models

  const CarModels: seq<string> := [
    "Nexon", "Punch", "Tiago", "Tigor", "Altroz", "Harrier", "Safari",
    "Curvv", "Tata EV", "Nexon EV", "Punch EV", "Mahindra", "Rolls Royce",
    "XUV", "Scorpio", "Thar", "Bolero"
  ]

  /** No car model name holds a comma. */
  lemma CarModelsCommaFree()
    ensures forall m :: m in CarModels ==> CommaFree(m) && m != []
  {
  }

  /** The models of `models`, in list order, that `re.search` finds as words in `s`. */
  function Detected(models: seq<string>, s: string): (found: seq<string>)
    ensures forall m :: m in found ==> m in models
    decreases |models|
  {
    if models == [] then []
    else
      var last := models[|models| - 1];
      Detected(models[..|models| - 1], s) + (if Search(last, s) then [last] else [])
  }

  /** A model is detected exactly when it is in the list and occurs in `s` as a whole word. */
  lemma {:induction false} DetectedIffOccurs(models: seq<string>, s: string, m: string)
    ensures m in Detected(models, s) <==> m in models && Occurs(m, s)
    decreases |models|
  {
    if models != [] {
      var init, last := models[..|models| - 1], models[|models| - 1];
      assert models == init + [last];
      DetectedIffOccurs(init, s, m);
    }
  }

  /** "nexon ev" mentions both "Nexon" and "Nexon EV". */
  lemma NexonEvDetectsBoth()
    ensures "Nexon" in Detected(CarModels, "nexon ev")
    ensures "Nexon EV" in Detected(CarModels, "nexon ev")
  {
    var s := "nexon ev";
    assert s[0..5] == "nexon" && s[0..8] == s;
    assert WordAt(s, "Nexon", 0);
    assert WordAt(s, "Nexon EV", 0);
    DetectedIffOccurs(CarModels, s, "Nexon");
    DetectedIffOccurs(CarModels, s, "Nexon EV");
  }

  // ---------------------------------------------------------------------
  // extract_with_regex

  /** The four strings `extract_with_regex` returns, one per dictionary key. */
  datatype Findings = Findings(
    phoneNumbersFound: string,
    amountsMentioned: string,
    carModelsDetected: string,
    datesFound: string)

  /** `xs[:n]`. */
  function Take(xs: seq<string>, n: nat): (r: seq<string>)
    ensures |r| <= n && |r| <= |xs| && r == xs[..|r|]
    ensures |xs| <= n ==> r == xs
  {
    if |xs| <= n then xs else xs[..n]
  }

  /** What `extract_with_regex` promises about its four strings. */
  ghost predicate IsFindingsOf(f: Findings, s: string) {
    && JoinsSetOf(f.phoneNumbersFound, Matches(Phone, s))
    && f.amountsMentioned == Join(Take(Matches(Amount, s), 5))
    && JoinsSetOf(f.carModelsDetected, Detected(CarModels, s))
    && f.datesFound == Join(Matches(Date, s))
  }

  /** The loop over the model list: every name `re.search` finds as a word, in list order. */
  method DetectModels(models: seq<string>, s: string) returns (found: seq<string>)
    ensures found == Detected(models, s)
  {
    found := [];
    for i := 0 to |models|
      invariant found == Detected(models[..i], s)
    {
      assert models[..i + 1][..i] == models[..i];
      if Search(models[i], s) {
        found := found + [models[i]];
      }
    }
    assert models[..|models|] == models;
  }

  method ExtractWithRegex(s: string) returns (f: Findings)
    ensures IsFindingsOf(f, s)
  {
    var phones := Matches(Phone, s);
    var phoneText := "";
    ghost var phoneOrder: seq<string> := [];
    if phones != [] {
      phoneText, phoneOrder := JoinSet(phones);
    }

    var amounts := Matches(Amount, s);
    var amountText := if amounts != [] then Join(Take(amounts, 5)) else "";

    var found := DetectModels(CarModels, s);
    var modelText := "";
    ghost var modelOrder: seq<string> := [];
    if found != [] {
      modelText, modelOrder := JoinSet(found);
    }

    var dates := Matches(Date, s);
    var dateText := if dates != [] then Join(dates) else "";

    f := Findings(phoneText, amountText, modelText, dateText);
    assert IsEnumeration(phoneOrder, phones);
    assert JoinsSetOf(phoneText, phones);
    assert IsEnumeration(modelOrder, found);
    assert JoinsSetOf(modelText, found);
  }

  // ---------------------------------------------------------------------
  // What the finding strings say

  /** The phone string is empty exactly when there is no phone match; otherwise it lists each match once. */
  lemma PhoneFindings(f: Findings, s: string)
    requires IsFindingsOf(f, s)
    ensures f.phoneNumbersFound == "" <==> Matches(Phone, s) == []
    ensures f.phoneNumbersFound != "" ==>
      && (forall x :: x in Split(f.phoneNumbersFound) <==> x in Matches(Phone, s))
      && (forall i, j :: 0 <= i < j < |Split(f.phoneNumbersFound)| ==>
            Split(f.phoneNumbersFound)[i] != Split(f.phoneNumbersFound)[j])
  {
    MatchesCommaFree(Phone, s);
    JoinedSetFacts(f.phoneNumbersFound, Matches(Phone, s));
  }

  /**
   * The amount string is empty exactly when there is no amount match; it
   * joins the first five matches, in document order and with duplicates,
   * when there are more than five, and all of them otherwise.
   */
  lemma AmountFindings(f: Findings, s: string)
    requires IsFindingsOf(f, s)
    ensures f.amountsMentioned == "" <==> Matches(Amount, s) == []
    ensures |Matches(Amount, s)| > 5 ==> f.amountsMentioned == Join(Matches(Amount, s)[..5])
    ensures |Matches(Amount, s)| <= 5 ==> f.amountsMentioned == Join(Matches(Amount, s))
  {
    var ms := Matches(Amount, s);
    var kept := Take(ms, 5);
    if ms != [] {
      assert kept[0] == ms[0];
    }
    JoinEmpty(kept);
  }

  /**
   * The car-model string is empty exactly when no model occurs as a word;
   * otherwise it lists, once each and spelled as in the model list, exactly
   * the models that occur.
   */
  lemma CarModelFindings(f: Findings, s: string)
    requires IsFindingsOf(f, s)
    ensures f.carModelsDetected == "" <==> forall m :: m in CarModels ==> !Occurs(m, s)
    ensures f.carModelsDetected != "" ==>
      && (forall m :: m in Split(f.carModelsDetected) <==> m in CarModels && Occurs(m, s))
      && (forall i, j :: 0 <= i < j < |Split(f.carModelsDetected)| ==>
            Split(f.carModelsDetected)[i] != Split(f.carModelsDetected)[j])
  {
    var found := Detected(CarModels, s);
    CarModelsCommaFree();
    forall m ensures m in found <==> m in CarModels && Occurs(m, s) {
      DetectedIffOccurs(CarModels, s, m);
    }
    assert forall i :: 0 <= i < |found| ==> found[i] in CarModels;
    JoinedSetFacts(f.carModelsDetected, found);
    if found != [] {
      assert found[0] in CarModels && Occurs(found[0], s);
    }
  }

  /** The date string is empty exactly when there is no date match; otherwise it splits back into every match, in order. */
  lemma DateFindings(f: Findings, s: string)
    requires IsFindingsOf(f, s)
    ensures f.datesFound == "" <==> Matches(Date, s) == []
    ensures f.datesFound != "" ==> Split(f.datesFound) == Matches(Date, s)
  {
    var ms := Matches(Date, s);
    JoinEmpty(ms);
    if ms != [] {
      MatchesCommaFree(Date, s);
      SplitJoin(ms);
    }
  }
}
