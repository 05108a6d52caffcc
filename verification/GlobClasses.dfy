/** What a character class of a path pattern stands for (scripts/select_e2e_scopes.py). */
module GlobClasses {
  import opened ScopeGlob

  datatype Item = Single(c: char) | Range(lo: char, hi: char)

  ghost function Spelt(item: Item): string {
    match item case Single(c) => [c] case Range(lo, hi) => [lo, '-', hi]
  }

  ghost function AllSpelt(items: seq<Item>): string {
    if items == [] then [] else Spelt(items[0]) + AllSpelt(items[1..])
  }

  /** No single character is followed by a dash and one more. */
  ghost predicate AreItems(items: seq<Item>) {
    items == [] ||
    (&& (items[0].Single? ==> !(|AllSpelt(items[1..])| >= 2 && AllSpelt(items[1..])[0] == '-'))
     && AreItems(items[1..]))
  }

  ghost predicate Covers(item: Item, c: char) {
    match item case Single(d) => c == d case Range(lo, hi) => lo <= c && c <= hi
  }

  ghost predicate IsForward(item: Item) {
    item.Range? ==> item.lo <= item.hi
  }

  /** Every text is spelt in items. */
  lemma {:induction false} ItemsOf(text: string) returns (items: seq<Item>)
    ensures AreItems(items) && AllSpelt(items) == text
    decreases |text|
  {
    items := [];
    if text != [] {
      var first := if |text| >= 3 && text[1] == '-' then Range(text[0], text[2]) else Single(text[0]);
      var rest := text[|Spelt(first)|..];
      var more := ItemsOf(rest);
      items := [first] + more;
      assert items[1..] == more && text == Spelt(first) + rest;
    }
  }

  lemma FirstItem(items: seq<Item>, c: char)
    requires items != [] && AreItems(items)
    ensures InItems(AllSpelt(items), c) <==> Covers(items[0], c) || InItems(AllSpelt(items[1..]), c)
    ensures RangesOk(AllSpelt(items)) <==> IsForward(items[0]) && RangesOk(AllSpelt(items[1..]))
  {
    var text, rest := AllSpelt(items), AllSpelt(items[1..]);
    assert text == Spelt(items[0]) + rest && text[|Spelt(items[0])|..] == rest;
    hide AllSpelt;
    assert items[0].Single? ==> (|text| >= 3 ==> text[1] == rest[0]);
  }

  /** A character is in the class when an item covers it; ranges may not run backwards. */
  lemma {:induction false} ItemsAre(items: seq<Item>, c: char)
    requires AreItems(items)
    ensures InItems(AllSpelt(items), c) <==> exists i :: 0 <= i < |items| && Covers(items[i], c)
    ensures RangesOk(AllSpelt(items)) <==> forall i :: 0 <= i < |items| ==> IsForward(items[i])
  {
    if items != [] {
      var rest := items[1..];
      FirstItem(items, c);
      ItemsAre(rest, c);
      hide InItems, RangesOk, AllSpelt, Covers, IsForward;
      assert forall i :: 0 < i < |items| ==> items[i] == rest[i - 1];
      if i :| 0 <= i < |rest| && Covers(rest[i], c) { assert Covers(items[i + 1], c); }
      assert forall i :: 0 <= i < |rest| ==> rest[i] == items[i + 1];
    }
  }

  /** A class is a list of items, after an exclamation mark one of those it leaves out. */
  lemma ClassIs(content: string, c: char) returns (items: seq<Item>)
    requires content != []
    ensures AreItems(items) && AllSpelt(items) == if content[0] == '!' then content[1..] else content
    ensures IsClass(content) <==>
              && '/' !in content && '\\' !in content && items != []
              && forall i :: 0 <= i < |items| ==> IsForward(items[i])
    ensures IsClass(content) ==>
              (InClass(content, c) <==>
               if content[0] == '!' then forall i :: 0 <= i < |items| ==> !Covers(items[i], c)
               else exists i :: 0 <= i < |items| && Covers(items[i], c))
  {
    items := ItemsOf(if content[0] == '!' then content[1..] else content);
    ItemsAre(items, c);
    hide InItems, RangesOk, Covers, IsForward, AreItems;
    if content[0] == '!' { assert content == "!" <==> content[1..] == []; }
  }
}
