/**
 * The post-event form's editable lists (sponsorship packages, benefits and
 * tags): the add and remove updaters and the Add button that trims its
 * input first.
 */
module PostEvent {
  import opened Lists
  import opened Text

  /**
   * `addTo`: an empty value is ignored, a value already listed is not added
   * again, any other value is appended; what was listed stays in place.
   */
  function AddTo(items: seq<string>, value: string): (r: seq<string>)
    ensures |r| >= |items| && r[..|items|] == items
    ensures forall x :: x in r <==> x in items || (x == value && value != "")
    ensures |r| <= |items| + 1
    ensures NoDup(items) ==> NoDup(r)
    ensures value == "" || value in items ==> r == items
    ensures value != "" && value !in items ==> r == items + [value]
  {
    if value == "" then items
    else if value in items then items
    else items + [value]
  }

  /**
   * `removeAt`: `items.filter((_, i) => i !== index)`, scanning the indices
   * from 0. An index in range drops exactly that item; any other index
   * drops nothing.
   */
  function RemoveAt(items: seq<string>, index: int): (r: seq<string>)
    ensures 0 <= index < |items| ==> r == items[..index] + items[index + 1..]
    ensures !(0 <= index < |items|) ==> r == items
  {
    if items == [] then []
    else (if index == 0 then [] else [items[0]]) + RemoveAt(items[1..], index - 1)
  }

  /** Index by index: the items before `index` stay put, the ones after move down by one. */
  lemma RemoveAtShifts(items: seq<string>, index: int)
    requires 0 <= index < |items|
    ensures |RemoveAt(items, index)| == |items| - 1
    ensures forall k :: 0 <= k < |items| - 1 ==>
      RemoveAt(items, index)[k] == items[if k < index then k else k + 1]
  {
    var front, back := items[..index], items[index + 1..];
    assert RemoveAt(items, index) == front + back;
    assert forall k :: 0 <= k < |back| ==> back[k] == items[index + 1 + k];
  }

  lemma RemoveAtShrinks(items: seq<string>, index: int)
    requires 0 <= index < |items|
    ensures |RemoveAt(items, index)| == |items| - 1
    ensures NoDup(items) ==> NoDup(RemoveAt(items, index))
  {
    RemoveAtShifts(items, index);
  }

  /** The Add button: `onAdd(val.trim())`. */
  function AddItem(items: seq<string>, input: string): (r: seq<string>)
    ensures AllWhitespace(input) ==> r == items
    ensures forall x :: x in r && x !in items ==> x == Trim(input) && x != "" && IsTrimmed(x)
    ensures Trim(input) in items ==> r == items
    ensures !AllWhitespace(input) && Trim(input) !in items ==> r == items + [Trim(input)]
  {
    AddTo(items, Trim(input))
  }

  /** Every listed item is non-empty, has no white space at either end, and is listed once. */
  predicate WellFormed(items: seq<string>) {
    && NoDup(items)
    && forall i :: 0 <= i < |items| ==> items[i] != "" && IsTrimmed(items[i])
  }

  /** The Add button keeps a well-formed list well-formed. */
  lemma AddItemKeepsWellFormed(items: seq<string>, input: string)
    requires WellFormed(items)
    ensures WellFormed(AddItem(items, input))
  {
    var a := AddItem(items, input);
    forall i | 0 <= i < |a| ensures a[i] != "" && IsTrimmed(a[i]) {
      if i >= |items| {
        assert a[i] in a && a[i] !in items;
      } else {
        assert a[i] == a[..|items|][i];
      }
    }
  }

  /** The Remove button keeps a well-formed list well-formed. */
  lemma RemoveAtKeepsWellFormed(items: seq<string>, index: int)
    requires WellFormed(items)
    ensures WellFormed(RemoveAt(items, index))
  {
    if 0 <= index < |items| {
      RemoveAtShrinks(items, index);
      RemoveAtShifts(items, index);
    }
  }

  lemma GoldLeading()
    ensures SkipLeading("  Gold ", 0) == 2
  {
    var s := "  Gold ";
    assert s[0] == ' ' && s[1] == ' ' && s[2] == 'G';
  }

  lemma GoldTrailing()
    ensures SkipTrailing("  Gold ", 2, 7) == 6
  {
    var s := "  Gold ";
    assert s[6] == ' ' && s[5] == 'd';
  }

  lemma TrimGold()
    ensures Trim("  Gold ") == "Gold"
  {
    GoldLeading();
    GoldTrailing();
    assert "  Gold "[2..6] == "Gold";
  }

  /** Adding "  Gold " to a list holding "Gold" changes nothing. */
  lemma AddPaddedDuplicate()
    ensures AddItem(["Gold"], "  Gold ") == ["Gold"]
  {
    TrimGold();
  }

  lemma SilverTrailing()
    ensures SkipTrailing("Silver ", 0, 7) == 6
  {
    var s := "Silver ";
    assert s[6] == ' ' && s[5] == 'r';
  }

  lemma TrimSilver()
    ensures Trim("Silver ") == "Silver"
  {
    assert SkipLeading("Silver ", 0) == 0 by {
      assert "Silver "[0] == 'S';
    }
    SilverTrailing();
    assert "Silver "[0..6] == "Silver";
  }

  /** "Silver " is appended without its trailing blank. */
  lemma AddPaddedNew()
    ensures AddItem(["Gold"], "Silver ") == ["Gold", "Silver"]
  {
    assert AddItem(["Gold"], "Silver ") == AddTo(["Gold"], "Silver") by { TrimSilver(); }
    assert AddTo(["Gold"], "Silver") == ["Gold", "Silver"] by {
      assert |"Silver"| != |"Gold"|;
    }
  }

  /** Blank input adds nothing. */
  lemma AddBlank()
    ensures AddItem(["Gold"], " \t ") == ["Gold"]
  {
    assert AllWhitespace(" \t ") by {
      assert " \t "[0] == ' ' && " \t "[1] == '\t' && " \t "[2] == ' ';
    }
  }
}
