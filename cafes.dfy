/** The café record shared by every component, the form-field edits on it,
    and the projection of a catalogue response onto it. */
module Cafes {

  datatype Option<T> = None | Some(value: T)

  /** A café as the components keep it: a title (the de facto key) and a type.
      The field `kind` stands for the record's `type` field (a reserved word here). */
  datatype Cafe = Cafe(title: string, kind: string)

  /** The two named inputs a form edits: `name="title"` and `name="type"`. */
  datatype Field = Title | Type

  function FieldOf(c: Cafe, f: Field): string
  {
    match f
    case Title => c.title
    case Type => c.kind
  }

  /** `{ ...c, [name]: value }`: the record with one named field overwritten. */
  function WithField(c: Cafe, f: Field, v: string): (r: Cafe)
    ensures FieldOf(r, f) == v
    ensures forall g :: g != f ==> FieldOf(r, g) == FieldOf(c, g)
  {
    match f
    case Title => c.(title := v)
    case Type => c.(kind := v)
  }

  /** Writing back the value a field already holds changes nothing. */
  lemma WithFieldSameValue(c: Cafe, f: Field)
    ensures WithField(c, f, FieldOf(c, f)) == c
  {
  }

  /** Two edits of the same field: the later one wins. */
  lemma WithFieldTwice(c: Cafe, f: Field, v: string, w: string)
    ensures WithField(WithField(c, f, v), f, w) == WithField(c, f, w)
  {
  }

  /** One element of a catalogue response: at least `title` and `type`; every
      other field of the remote object (description, ingredients, image, id)
      is abstracted as text in `others`. */
  datatype RemoteItem = RemoteItem(title: string, kind: string, others: map<string, string>)

  /** What a GET on the catalogue yields: the response body or a rejection. */
  datatype Response = Loaded(items: seq<RemoteItem>) | Failed

  function ToCafe(item: RemoteItem): Cafe
  {
    Cafe(item.title, item.kind)
  }

  /** `data.map(cafe => ({ title: cafe.title, type: cafe.type }))`:
      same length, same order, each element keeps only its item's title and type. */
  function Project(items: seq<RemoteItem>): (r: seq<Cafe>)
    ensures |r| == |items|
    ensures forall i :: 0 <= i < |items| ==> r[i].title == items[i].title && r[i].kind == items[i].kind
  {
    if items == [] then [] else [ToCafe(items[0])] + Project(items[1..])
  }

  /** A catalogue item carrying a café and no other field. */
  function Embed(c: Cafe): (item: RemoteItem)
    ensures ToCafe(item) == c
  {
    RemoteItem(c.title, c.kind, map[])
  }

  function EmbedAll(cafes: seq<Cafe>): (items: seq<RemoteItem>)
    ensures |items| == |cafes|
    ensures forall i :: 0 <= i < |cafes| ==> items[i] == Embed(cafes[i])
  {
    if cafes == [] then [] else [Embed(cafes[0])] + EmbedAll(cafes[1..])
  }

  /** Projection recovers exactly the cafés a response was built from. */
  lemma {:induction false} ProjectEmbedAll(cafes: seq<Cafe>)
    ensures Project(EmbedAll(cafes)) == cafes
  {
    if cafes != [] {
      ProjectEmbedAll(cafes[1..]);
      assert EmbedAll(cafes)[1..] == EmbedAll(cafes[1..]);
    }
  }

  /** Projection is lossy by design: fields other than title and type never matter. */
  lemma {:induction false} ProjectIgnoresOthers(a: seq<RemoteItem>, b: seq<RemoteItem>)
    requires |a| == |b|
    requires forall i :: 0 <= i < |a| ==> a[i].title == b[i].title && a[i].kind == b[i].kind
    ensures Project(a) == Project(b)
  {
    if a != [] {
      ProjectIgnoresOthers(a[1..], b[1..]);
    }
  }

  /** Projection distributes over concatenation of responses. */
  lemma {:induction false} ProjectAppend(a: seq<RemoteItem>, b: seq<RemoteItem>)
    ensures Project(a + b) == Project(a) + Project(b)
  {
    if a != [] {
      assert (a + b)[1..] == a[1..] + b;
      ProjectAppend(a[1..], b);
    }
  }

  /** Number of records whose title is `title`. */
  function CountTitle(cafes: seq<Cafe>, title: string): (n: nat)
    ensures n <= |cafes|
    ensures n == 0 <==> forall i :: 0 <= i < |cafes| ==> cafes[i].title != title
  {
    if cafes == [] then 0
    else (if cafes[0].title == title then 1 else 0) + CountTitle(cafes[1..], title)
  }

  lemma {:induction false} CountTitleAppend(a: seq<Cafe>, b: seq<Cafe>, title: string)
    ensures CountTitle(a + b, title) == CountTitle(a, title) + CountTitle(b, title)
  {
    if a != [] {
      assert (a + b)[1..] == a[1..] + b;
      CountTitleAppend(a[1..], b, title);
    } else {
      assert a + b == b;
    }
  }
}
