/** The highlight record that both renderers consume, and the JavaScript
    `value || fallback` defaulting they apply to its optional fields. */
module Highlights {

  datatype Option<+T> = None | Some(value: T)

  /** One record of the Readwise review endpoint. A field that is absent
      (`undefined`) or `null` is `None`. Only `title`, `author` and `text` are
      read by the renderers; `id` and `note` are carried but never rendered. */
  datatype Highlight = Highlight(
    id: Option<string>,
    title: Option<string>,
    author: Option<string>,
    text: string,
    note: Option<string>)

  const UntitledPlaceholder := "Untitled"
  const UnknownAuthorPlaceholder := "Unknown Author"

  /** JavaScript truthiness of an optional string: absent, null and "" are falsy. */
  predicate Truthy(v: Option<string>) {
    v.Some? && v.value != ""
  }

  /** JavaScript's `||` on an optional string: the value itself when it is
      truthy, the fallback otherwise. */
  function OrElse(v: Option<string>, fallback: string): (r: string)
    ensures Truthy(v) ==> r == v.value
    ensures !Truthy(v) ==> r == fallback
    ensures r != "" <==> Truthy(v) || fallback != ""
  {
    if Truthy(v) then v.value else fallback
  }

  /** The title line: the title when it is truthy, else the placeholder; never empty. */
  function DisplayTitle(h: Highlight): (r: string)
    ensures r != ""
    ensures Truthy(h.title) ==> r == h.title.value
    ensures !Truthy(h.title) ==> r == UntitledPlaceholder
  {
    OrElse(h.title, UntitledPlaceholder)
  }

  /** The author line: the author when it is truthy, else the placeholder; never empty. */
  function DisplayAuthor(h: Highlight): (r: string)
    ensures r != ""
    ensures Truthy(h.author) ==> r == h.author.value
    ensures !Truthy(h.author) ==> r == UnknownAuthorPlaceholder
  {
    OrElse(h.author, UnknownAuthorPlaceholder)
  }

  /** Two records that agree on everything the renderers read. */
  predicate SameRendered(h: Highlight, h': Highlight) {
    h.title == h'.title && h.author == h'.author && h.text == h'.text
  }
}
