/**
 * The rows of the wishlist and the share text built from them: the
 * clipboard preview shows, under a header, one line per item with its
 * reference, its name and a parenthesised list of its details.
 */
module Clipboard {
  import opened Wrappers
  import opened Text

  /** A row of the `items` table; the nullable columns are `Option`s. */
  datatype Item = Item(
    id: string,
    listCode: string,
    ref: string,
    name: Option<string>,
    color: Option<string>,
    size: Option<string>,
    quantity: int,
    other: Option<string>,
    createdAt: string)

  /** What an empty list is shared as. */
  const EmptyListText: string := "Liste Shopy Mom : (vide)"
  /** The first line of a non-empty share text (shopping-bags emoji with
      its variation selector). */
  const Title: string := "Shopy Mom \U{1F6CD}\U{FE0F}"
  /** Opens every item line. */
  const Bullet: string := "\U{2022} "
  /** Introduces the name. */
  const Dash: string := "\U{2014} "
  /** Separates the details. */
  const DetailSeparator: string := " \U{2022} "

  /** JavaScript truthiness of a nullable string: neither `null` nor `""`. */
  predicate IsPresent(o: Option<string>) {
    o.Some? && o.value != ""
  }

  /** The `parts` of an item line: its reference, then its name if present. */
  function Parts(it: Item): seq<string> {
    [Bullet + it.ref] + (if IsPresent(it.name) then [Dash + it.name.value] else [])
  }

  /** The `details` of an item line: the present ones among colour, size
      and other, then always the quantity. */
  function Details(it: Item): seq<string> {
    OptionalDetail("Couleur: ", it.color) + OptionalDetail("Taille: ", it.size)
    + OptionalDetail("Autre: ", it.other) + ["x" + IntToDecimal(it.quantity)]
  }

  /** `if (o) details.push(tag + o)`: the detail, only when present. */
  function OptionalDetail(tag: string, o: Option<string>): seq<string> {
    if IsPresent(o) then [tag + o.value] else []
  }

  /** The line one item is shared as. */
  function ItemLine(it: Item): string {
    Join(Parts(it), " ") + " (" + Join(Details(it), DetailSeparator) + ")"
  }

  /** `items.map(...)`: one line per item, in the order of the items. */
  function ItemLines(items: seq<Item>): (lines: seq<string>)
    ensures |lines| == |items|
    ensures forall k :: 0 <= k < |items| ==> lines[k] == ItemLine(items[k])
  {
    seq(|items|, k requires 0 <= k < |items| => ItemLine(items[k]))
  }

  /** `formatForClipboard(items)`. The placeholder is produced exactly for
      the empty list. */
  function FormatForClipboard(items: seq<Item>): (text: string)
    ensures text == EmptyListText <==> items == []
  {
    if |items| == 0 then EmptyListText
    else
      var text := Title + "\n\n" + Join(ItemLines(items), "\n");
      assert text[0] == 'S' && EmptyListText[0] == 'L';
      text
  }

  /** An optional detail as it appears inside the parentheses: its label
      and value followed by the separator, or nothing at all. */
  function DetailText(tag: string, o: Option<string>): string {
    if IsPresent(o) then tag + o.value + DetailSeparator else ""
  }

  /** The layout of an item line written out: bullet and reference, the
      name after a dash only when present, then in parentheses the present
      details in the order colour, size, other, ending with the quantity. */
  lemma ItemLineLayout(it: Item)
    ensures ItemLine(it) ==
      Bullet + it.ref
      + (if IsPresent(it.name) then " " + Dash + it.name.value else "")
      + " ("
      + DetailText("Couleur: ", it.color) + DetailText("Taille: ", it.size)
      + DetailText("Autre: ", it.other)
      + "x" + IntToDecimal(it.quantity) + ")"
  {
    PartsLayout(it);
    DetailsLayout(it);
  }

  lemma PartsLayout(it: Item)
    ensures Join(Parts(it), " ") ==
      Bullet + it.ref + (if IsPresent(it.name) then " " + Dash + it.name.value else "")
  {
  }

  lemma DetailsLayout(it: Item)
    ensures Join(Details(it), DetailSeparator) ==
      DetailText("Couleur: ", it.color) + DetailText("Taille: ", it.size)
      + DetailText("Autre: ", it.other) + "x" + IntToDecimal(it.quantity)
  {
    var c := OptionalDetail("Couleur: ", it.color);
    var s := OptionalDetail("Taille: ", it.size);
    var o := OptionalDetail("Autre: ", it.other);
    JoinSnoc(c + s + o, "x" + IntToDecimal(it.quantity), DetailSeparator);
    Terminated3(c, s, o, DetailSeparator);
    OptionalDetailText("Couleur: ", it.color);
    OptionalDetailText("Taille: ", it.size);
    OptionalDetailText("Autre: ", it.other);
  }

  /** An optional detail, followed by the separator when present. */
  lemma OptionalDetailText(tag: string, o: Option<string>)
    ensures Terminated(OptionalDetail(tag, o), DetailSeparator) == DetailText(tag, o)
  {
  }

  /** Each string followed by the separator, all concatenated. */
  function Terminated(xs: seq<string>, sep: string): string {
    if xs == [] then "" else xs[0] + sep + Terminated(xs[1..], sep)
  }

  /** Joining a list with one last element: every other element is followed
      by the separator. */
  lemma {:induction false} JoinSnoc(xs: seq<string>, y: string, sep: string)
    ensures Join(xs + [y], sep) == Terminated(xs, sep) + y
  {
    if xs != [] {
      assert (xs + [y])[1..] == xs[1..] + [y];
      JoinSnoc(xs[1..], y, sep);
    }
  }

  /** `Terminated` distributes over concatenation. */
  lemma {:induction false} TerminatedAppend(xs: seq<string>, ys: seq<string>, sep: string)
    ensures Terminated(xs + ys, sep) == Terminated(xs, sep) + Terminated(ys, sep)
  {
    if xs == [] {
      assert xs + ys == ys;
    } else {
      assert (xs + ys)[1..] == xs[1..] + ys;
      TerminatedAppend(xs[1..], ys, sep);
    }
  }

  lemma Terminated3(a: seq<string>, b: seq<string>, c: seq<string>, sep: string)
    ensures Terminated(a + b + c, sep) == Terminated(a, sep) + Terminated(b, sep) + Terminated(c, sep)
  {
    TerminatedAppend(a + b, c, sep);
    TerminatedAppend(a, b, sep);
  }

  /** `null` and `""` are shared alike: an optional field left empty is
      omitted exactly as a missing one. */
  lemma EmptyFieldIsOmitted(it: Item)
    ensures ItemLine(it.(name := Some(""))) == ItemLine(it.(name := None))
    ensures ItemLine(it.(color := Some(""))) == ItemLine(it.(color := None))
    ensures ItemLine(it.(size := Some(""))) == ItemLine(it.(size := None))
    ensures ItemLine(it.(other := Some(""))) == ItemLine(it.(other := None))
  {
    ItemLineLayout(it.(name := Some("")));
    ItemLineLayout(it.(name := None));
    ItemLineLayout(it.(color := Some("")));
    ItemLineLayout(it.(color := None));
    ItemLineLayout(it.(size := Some("")));
    ItemLineLayout(it.(size := None));
    ItemLineLayout(it.(other := Some("")));
    ItemLineLayout(it.(other := None));
  }

  /** The fields that make up an item line hold no line feed. */
  ghost predicate IsSingleLine(it: Item) {
    '\n' !in it.ref
    && (it.name.Some? ==> '\n' !in it.name.value)
    && (it.color.Some? ==> '\n' !in it.color.value)
    && (it.size.Some? ==> '\n' !in it.size.value)
    && (it.other.Some? ==> '\n' !in it.other.value)
  }

  /** An item line of single-line fields is one line. */
  lemma ItemLineIsOneLine(it: Item)
    requires IsSingleLine(it)
    ensures '\n' !in ItemLine(it)
  {
    ItemLineLayout(it);
    var d := IntToDecimal(it.quantity);
    assert '\n' !in d by {
      assert forall k :: 0 <= k < |d| ==> d[k] == '-' || IsAsciiDigit(d[k]);
    }
  }

  /** A non-empty share text is the header line, a blank line and then one
      line per item, in the order of the items. */
  lemma FormatForClipboardLines(items: seq<Item>)
    requires items != []
    requires forall k :: 0 <= k < |items| ==> IsSingleLine(items[k])
    ensures Split(FormatForClipboard(items), '\n') == [Title, ""] + ItemLines(items)
    ensures |Split(FormatForClipboard(items), '\n')| == |items| + 2
    ensures forall k :: 0 <= k < |items| ==>
      Split(FormatForClipboard(items), '\n')[k + 2] == ItemLine(items[k])
  {
    var lines := ItemLines(items);
    forall k | 0 <= k < |lines| ensures '\n' !in lines[k] {
      ItemLineIsOneLine(items[k]);
    }
    FormatForClipboardJoin(items);
    HeaderIsOneLine(lines);
    SplitJoin([Title, ""] + lines, '\n');
  }

  /** The header and the blank line hold no line feed. */
  lemma HeaderIsOneLine(lines: seq<string>)
    requires forall k :: 0 <= k < |lines| ==> '\n' !in lines[k]
    ensures forall k :: 0 <= k < |lines| + 2 ==> '\n' !in ([Title, ""] + lines)[k]
  {
    assert '\n' !in Title;
    forall k | 0 <= k < |lines| + 2 ensures '\n' !in ([Title, ""] + lines)[k] {
      if k >= 2 {
        assert ([Title, ""] + lines)[k] == lines[k - 2];
      }
    }
  }

  /** A non-empty share text joins the header, a blank line and the item
      lines with line feeds. */
  lemma FormatForClipboardJoin(items: seq<Item>)
    requires items != []
    ensures FormatForClipboard(items) == Join([Title, ""] + ItemLines(items), "\n")
  {
    JoinAppend([Title, ""], ItemLines(items), "\n");
    assert Join([Title, ""], "\n") == Title + "\n";
  }

  /** The line of a named item with a size and no colour or other detail. */
  lemma ItemLineExample(it: Item)
    requires it.ref == "999" && it.name == Some("Robe") && it.quantity == 2
    requires it.color == None && it.size == Some("M") && it.other == None
    ensures ItemLine(it) == "\U{2022} 999 \U{2014} Robe (Taille: M \U{2022} x2)"
  {
    var parts := ExampleParts(it);
    var details := ExampleDetails(it);
    assert ItemLine(it) == parts + " (" + details + ")";
  }

  lemma ExampleParts(it: Item) returns (parts: string)
    requires it.ref == "999" && it.name == Some("Robe")
    ensures parts == "\U{2022} 999 \U{2014} Robe" && Join(Parts(it), " ") == parts
  {
    PartsLayout(it);
    parts := Bullet + it.ref + " " + Dash + it.name.value;
  }

  lemma ExampleDetails(it: Item) returns (details: string)
    requires it.quantity == 2 && it.color == None && it.size == Some("M") && it.other == None
    ensures details == "Taille: M \U{2022} x2" && Join(Details(it), DetailSeparator) == details
  {
    DetailsLayout(it);
    assert IntToDecimal(2) == "2";
    details := "Taille: M" + DetailSeparator + "x2";
  }
}
