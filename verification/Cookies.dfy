/** Reading one cookie out of a Cookie header (`cookieValue` in verify.go). */
module Cookies {
  import opened Wrappers
  import opened Text

  function CookieIn(parts: seq<string>, name: string): string {
    if parts == [] then ""
    else match Cut(Trim(parts[0]), '=')
      case Some((k, v)) => if k == name then v else CookieIn(parts[1..], name)
      case None => CookieIn(parts[1..], name)
  }

  function CookieValue(header: string, name: string): string {
    CookieIn(Split(header, ';'), name)
  }

  /** The scan as the source writes it: an early return from a loop. */
  method FindCookie(header: string, name: string) returns (value: string)
    ensures value == CookieValue(header, name)
  {
    var parts := Split(header, ';');
    for i := 0 to |parts|
      invariant CookieIn(parts, name) == CookieIn(parts[i..], name)
    {
      var cut := Cut(Trim(parts[i]), '=');
      if cut.Some? && cut.value.0 == name {
        return cut.value.1;
      }
    }
    return "";
  }

  // ----- Serialization ------------------------------------------------------------------------

  /** A piece of a Cookie header: a binding, or text that binds nothing. */
  datatype Item = Binding(name: string, value: string) | Stray(text: string)

  /**
    The shape of section 4.2.1 of RFC 6265: a name has no `=` or `;` and does not start with a
    space, a value has no `;` and does not end with one, but may contain `=`.
   */
  predicate WellFormed(item: Item) {
    match item
    case Binding(n, v) =>
      && Without(n, '=') && Without(n, ';') && (n == "" || !IsSpace(n[0]))
      && Without(v, ';') && (v == "" || !IsSpace(v[|v| - 1]))
    case Stray(t) => Without(t, '=') && Without(t, ';')
  }

  function Render(item: Item): string {
    match item
    case Binding(n, v) => n + "=" + v
    case Stray(t) => t
  }

  function Serialize(items: seq<Item>): string {
    if items == [] then ""
    else if |items| == 1 then Render(items[0])
    else Render(items[0]) + "; " + Serialize(items[1..])
  }

  /** What a reader of the list itself would answer: the first binding of the name, else "". */
  function FirstBinding(items: seq<Item>, name: string): string {
    if items == [] then ""
    else if items[0].Binding? && items[0].name == name then items[0].value
    else FirstBinding(items[1..], name)
  }

  function Bindings(items: seq<Item>): seq<Item> {
    if items == [] then []
    else (if items[0].Binding? then [items[0]] else []) + Bindings(items[1..])
  }

  /** One piece, with or without the space that follows a ";", is cut where it was joined. */
  lemma PieceIsCut(item: Item, pad: string)
    requires WellFormed(item) && Blank(pad) && Without(pad, '=')
    ensures Cut(Trim(pad + Render(item)), '=') ==
            if item.Binding? then Some((item.name, item.value)) else None
  {
    var text := Render(item);
    if item.Binding? {
      assert text == item.name + ['='] + item.value;
      assert Trimmed(text);
      TrimUnpads(pad, text, "");
      assert pad + text + "" == pad + text;
      CutAtFirst(item.name, '=', item.value);
    } else {
      TrimWithout(pad + text, '=');
      CutWithout(Trim(pad + text), '=');
    }
  }

  lemma RenderWithoutSeparator(item: Item)
    requires WellFormed(item)
    ensures Without(Render(item), ';')
  {
  }

  /** A piece in front of the rest of a header is looked at first. */
  lemma FirstPiece(item: Item, pad: string, name: string)
    requires WellFormed(item) && Blank(pad) && Without(pad, '=') && Without(pad, ';')
    ensures Split(pad + Render(item), ';') == [pad + Render(item)]
    ensures forall rest: seq<string> ::
              CookieIn([pad + Render(item)] + rest, name) ==
              if item.Binding? && item.name == name then item.value else CookieIn(rest, name)
  {
    RenderWithoutSeparator(item);
    SplitWithout(pad + Render(item), ';');
    PieceIsCut(item, pad);
    forall rest: seq<string>
      ensures CookieIn([pad + Render(item)] + rest, name) ==
              if item.Binding? && item.name == name then item.value else CookieIn(rest, name)
    {
      assert ([pad + Render(item)] + rest)[1..] == rest;
    }
  }

  /** A header whose first piece is `first`, the only one, or followed by a ";" and `tail`. */
  lemma LookupFrom(item: Item, pad: string, tail: string, name: string)
    requires WellFormed(item) && Blank(pad) && Without(pad, '=') && Without(pad, ';')
    ensures var found := item.Binding? && item.name == name;
            && CookieValue(pad + Render(item), name) == (if found then item.value else "")
            && CookieValue(pad + Render(item) + [';'] + tail, name) ==
               (if found then item.value else CookieValue(tail, name))
  {
    var first := pad + Render(item);
    FirstPiece(item, pad, name);
    assert [first] + [] == [first];
    SplitConcat(first, ';', tail);
  }

  lemma {:induction false} PaddedLookup(items: seq<Item>, pad: string, name: string)
    requires forall i | 0 <= i < |items| :: WellFormed(items[i])
    requires Blank(pad) && Without(pad, '=') && Without(pad, ';')
    ensures CookieValue(pad + Serialize(items), name) == FirstBinding(items, name)
  {
    if items == [] {
      LookupFrom(Stray(""), pad, "", name);
    } else if |items| == 1 {
      LookupFrom(items[0], pad, "", name);
      assert FirstBinding(items[1..], name) == "";
    } else {
      var tail := " " + Serialize(items[1..]);
      assert pad + Serialize(items) == pad + Render(items[0]) + [';'] + tail;
      LookupFrom(items[0], pad, tail, name);
      PaddedLookup(items[1..], " ", name);
    }
  }

  /** Looking a cookie up inverts serializing the list: the first binding wins, and none is "". */
  lemma LookupInvertsSerialize(items: seq<Item>, name: string)
    requires forall i | 0 <= i < |items| :: WellFormed(items[i])
    ensures CookieValue(Serialize(items), name) == FirstBinding(items, name)
  {
    PaddedLookup(items, "", name);
    assert "" + Serialize(items) == Serialize(items);
  }

  lemma {:induction false} FirstBindingSkipsStray(items: seq<Item>, name: string)
    ensures FirstBinding(Bindings(items), name) == FirstBinding(items, name)
  {
    if items != [] {
      FirstBindingSkipsStray(items[1..], name);
      assert Bindings(items)[if items[0].Binding? then 1 else 0..] == Bindings(items[1..]);
    }
  }

  lemma {:induction false} BindingsWellFormed(items: seq<Item>)
    requires forall i | 0 <= i < |items| :: WellFormed(items[i])
    ensures forall i | 0 <= i < |Bindings(items)| :: WellFormed(Bindings(items)[i])
  {
    if items != [] {
      BindingsWellFormed(items[1..]);
    }
  }

  /** Pieces without an `=` can be inserted anywhere without changing any lookup. */
  lemma StrayPiecesAreIgnored(items: seq<Item>, name: string)
    requires forall i | 0 <= i < |items| :: WellFormed(items[i])
    ensures CookieValue(Serialize(items), name) == CookieValue(Serialize(Bindings(items)), name)
  {
    LookupInvertsSerialize(items, name);
    BindingsWellFormed(items);
    LookupInvertsSerialize(Bindings(items), name);
    FirstBindingSkipsStray(items, name);
  }
}
