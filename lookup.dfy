/** The list-level rules of the ticket store (TicketManager.cs), stated over
    sequences of ids and statuses: case-insensitive lookup of the first
    match, uniqueness of ids ignoring case, and the count of open tickets. */
module Lookup {
  import opened Text
  import opened Results

  /** The position of the first id equal to `q` ignoring case, if any. */
  function FirstMatch(ids: seq<string>, q: string): (r: Option<nat>)
    ensures r.Some? ==> && r.value < |ids| && EqualsIgnoreCase(ids[r.value], q)
                        && forall k :: 0 <= k < r.value ==> !EqualsIgnoreCase(ids[k], q)
    ensures r.None? <==> forall k :: 0 <= k < |ids| ==> !EqualsIgnoreCase(ids[k], q)
  {
    if ids == [] then None
    else if EqualsIgnoreCase(ids[0], q) then Some(0)
    else match FirstMatch(ids[1..], q)
      case None => None
      case Some(k) => Some(k + 1)
  }

  /** The ids at positions `i` and `j` differ ignoring case. */
  predicate Distinct(ids: seq<string>, i: nat, j: nat)
    requires i < |ids| && j < |ids|
  {
    !EqualsIgnoreCase(ids[i], ids[j])
  }

  /** No two ids are equal ignoring case. */
  ghost predicate UniqueIds(ids: seq<string>)
  {
    forall i: nat, j: nat :: i < j < |ids| ==> Distinct(ids, i, j)
  }

  /** Appending an id that matches none of a unique list keeps it unique. */
  lemma UniqueAppend(ids: seq<string>, x: string)
    requires UniqueIds(ids) && FirstMatch(ids, x).None?
    ensures UniqueIds(ids + [x])
  {
    var n := ids + [x];
    forall i: nat, j: nat | i < j < |n|
      ensures Distinct(n, i, j)
    {
      if j == |ids| {
        assert n[i] == ids[i] && n[j] == x;
      } else {
        assert n[i] == ids[i] && n[j] == ids[j];
        assert Distinct(ids, i, j);
      }
    }
  }

  /** Removing the id at position `k` keeps a list unique and the other ids
      in their order. */
  lemma UniqueRemove(ids: seq<string>, k: nat)
    requires UniqueIds(ids) && k < |ids|
    ensures UniqueIds(ids[..k] + ids[k + 1..])
  {
    var n := ids[..k] + ids[k + 1..];
    forall i: nat, j: nat | i < j < |n|
      ensures Distinct(n, i, j)
    {
      var i' := if i < k then i else i + 1;
      var j' := if j < k then j else j + 1;
      assert n[i] == ids[i'] && n[j] == ids[j'];
      assert Distinct(ids, i', j');
    }
  }

  /** In a unique list an id found at position `k` is the first and only
      match of any query equal to it ignoring case. */
  lemma UniqueMatchIsFirst(ids: seq<string>, k: nat, q: string)
    requires UniqueIds(ids) && k < |ids| && EqualsIgnoreCase(ids[k], q)
    ensures FirstMatch(ids, q) == Some(k)
  {
    forall j | 0 <= j < k
      ensures !EqualsIgnoreCase(ids[j], q)
    {
      assert Distinct(ids, j, k);
    }
  }

  /** A status counts as closed when it equals "Closed" ignoring case. */
  predicate IsClosed(status: string)
  {
    EqualsIgnoreCase(status, "Closed")
  }

  /** The number of statuses that are not closed. */
  function CountOpen(statuses: seq<string>): (n: nat)
    ensures n <= |statuses|
  {
    if statuses == [] then 0
    else CountOpen(statuses[..|statuses| - 1]) + (if IsClosed(statuses[|statuses| - 1]) then 0 else 1)
  }

  /** A list has as many open tickets as entries exactly when none is
      closed, and none exactly when all are. */
  lemma {:induction false} CountOpenExtremes(statuses: seq<string>)
    ensures CountOpen(statuses) == |statuses| <==> forall i :: 0 <= i < |statuses| ==> !IsClosed(statuses[i])
    ensures CountOpen(statuses) == 0 <==> forall i :: 0 <= i < |statuses| ==> IsClosed(statuses[i])
    decreases |statuses|
  {
    if statuses != [] {
      var front := statuses[..|statuses| - 1];
      CountOpenExtremes(front);
      assert forall i :: 0 <= i < |front| ==> front[i] == statuses[i];
    }
  }

  /** Open and In Progress tickets count as open, Closed ones do not: the
      statuses Open, In Progress, Closed, Closed give two. */
  lemma CountOpenExample()
    ensures CountOpen(["Open", "In Progress", "Closed", "Closed"]) == 2
  {
    var s := ["Open", "In Progress", "Closed", "Closed"];
    assert IsClosed("Closed");
    assert !IsClosed("Open") by {
      assert FoldCase("Open")[0] != FoldCase("Closed")[0];
    }
    assert !IsClosed("In Progress") by {
      assert |FoldCase("In Progress")| != |FoldCase("Closed")|;
    }
    assert s[..3] == ["Open", "In Progress", "Closed"];
    assert s[..3][..2] == ["Open", "In Progress"];
    assert s[..3][..2][..1] == ["Open"];
    assert CountOpen(["Open"]) == 1 by {
      assert ["Open"][..0] == [];
    }
    assert CountOpen(["Open", "In Progress"]) == 2;
    assert CountOpen(["Open", "In Progress", "Closed"]) == 2;
  }
}
