/** internal/base/iterator.go: the internal iterator that a user iterator wraps. */
module InternalIter {
  import opened Wrappers
  import opened InternalKeys
  import M = MergingIter

  /** A mergingIter over the levels of a store, or the versions of one key that a getIter returns. */
  class Iterator {
    const merging: M.Iterator?
    const versions: seq<Entry>
    var at: M.Place
    ghost const view: seq<Entry>   // what it runs over
    ghost var place: M.Place       // where in it
    ghost const Repr: set<object>

    ghost predicate Valid()
      reads this, Repr
      ensures Valid() ==> this in Repr && Sorted(view)
    {
      && this in Repr && Sorted(view)
      && if merging == null then
           versions == view && at == place
         else
           && merging in Repr && merging.heap in Repr
           && merging.Settled() && M.IsView(merging.levels, merging.snapshot, view)
           && M.Matches(view, merging.Position(), place)
    }

    constructor OverLevels(merging: M.Iterator, ghost view: seq<Entry>)
      requires merging.Settled() && merging.Position() == M.Fresh && M.IsView(merging.levels, merging.snapshot, view)
      ensures Valid() && this.view == view && place == M.Unplaced && fresh(Repr - {merging, merging.heap})
    {
      this.merging, versions, at := merging, [], M.Unplaced;
      this.view, place, Repr := view, M.Unplaced, {this, merging, merging.heap};
      new;
      M.ViewSorted(merging.levels, merging.snapshot, view);
    }

    constructor OverVersions(versions: seq<Entry>)
      requires Sorted(versions)
      ensures Valid() && view == versions && place == M.Unplaced && fresh(Repr)
    {
      merging, this.versions, at := null, versions, M.Unplaced;
      view, place, Repr := versions, M.Unplaced, {this};
    }

    /** Every call moves a cursor over the view and returns what is there. */
    method Call(op: M.Op) returns (result: Option<Entry>)
      requires Valid()
      modifies Repr
      ensures Valid() && place == M.Move(view, op, old(place)) && result == M.ItemAt(view, place)
    {
      hide M.IsView, M.Move, M.ItemAt, M.Matches, M.Iterator.Settled, M.Iterator.Position;
      if merging == null {
        at := M.Move(versions, op, at);
        result := M.ItemAt(versions, at);
      } else {
        result := M.Call(merging, op, view, place);
      }
      place := M.Move(view, op, place);
    }
  }
}
