/**
 * The change notifications an `ObservableCollection<T>` raises
 * (`NotifyCollectionChangedEventArgs`): the action with its old and new items.
 */
module CollectionChanges {

  datatype CollectionChange<T> =
    | Add(NewItems: seq<T>)
    | Remove(OldItems: seq<T>)
    | Replace(OldItems: seq<T>, NewItems: seq<T>)
    | Move
    | Reset
}
