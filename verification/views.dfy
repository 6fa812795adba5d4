/** What a page ends with: an info or warning message instead of a map or chart,
    or the items the map or chart is drawn from. */
module Views {

  datatype View<T> = Message(text: string) | Shown(items: seq<T>)
}
