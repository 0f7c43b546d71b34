/** The text rules of the query script `scripts/query.py`: the rank-change
    markers of `show_rank_history` and `show_statistics`, and the shortening
    of long descriptions in `list_agents`. Printing and database access are
    not modelled. */
module Query {
  import opened Common
  import Storage

  const Up := '\U{2191}'
  const Down := '\U{2193}'
  const Unchanged := "\U{2192}"

  /** How a rank change is written: `change` is the previous rank minus the
      current one, so a positive change is a climb. The arrow gives the
      direction and the digits the number of places. */
  function ChangeString(change: int): (s: string)
    ensures |s| > 0
    ensures change > 0 <==> s[0] == Up
    ensures change < 0 <==> s[0] == Down
    ensures change == 0 <==> s == Unchanged
    ensures change != 0 ==> AllDigits(s[1..]) && |s| > 1
  {
    if change > 0 then [Up] + NatToString(change)
    else if change < 0 then [Down] + NatToString(-change)
    else Unchanged
  }

  /** Reads a marker back into the change it stands for. */
  function ParseChange(s: string): Option<int> {
    if s == Unchanged then Some(0)
    else if |s| > 1 && s[0] == Up && AllDigits(s[1..]) then Some(ParseNat(s[1..]))
    else if |s| > 1 && s[0] == Down && AllDigits(s[1..]) then Some(0 - ParseNat(s[1..]))
    else None
  }

  /** A marker loses nothing: the change can be read back from it. */
  lemma ParseChangeString(change: int)
    ensures ParseChange(ChangeString(change)) == Some(change)
  {
    if change > 0 {
      ChangeStringArrowed(change, Up, change);
    } else if change < 0 {
      ChangeStringArrowed(change, Down, -change);
    } else {
      assert ChangeString(change) == Unchanged;
    }
  }

  lemma ChangeStringArrowed(change: int, arrow: char, n: nat)
    requires change != 0 && n == if change > 0 then change else -change
    requires arrow == if change > 0 then Up else Down
    ensures ParseChange(ChangeString(change)) == Some(change)
  {
    assert ChangeString(change) == [arrow] + NatToString(n);
    ParseArrowed(arrow, n);
  }

  lemma ParseArrowed(arrow: char, n: nat)
    requires arrow == Up || arrow == Down
    ensures ParseChange([arrow] + NatToString(n)) == Some(if arrow == Up then n as int else 0 - n)
  {
    var s := [arrow] + NatToString(n);
    assert s[0] == arrow && s[1..] == NatToString(n);
    assert s != Unchanged by { assert Unchanged[0] != arrow; }
    ParseNatOfNatToString(n);
  }

  /** The marker loop of `show_rank_history` over the records
      `get_rank_history` returned: the first record has no marker, every
      later one the change from the record before it. */
  method RankChangeMarkers(history: seq<Storage.RankPoint>) returns (markers: seq<string>)
    ensures |markers| == |history|
    ensures |history| > 0 ==> markers[0] == ""
    ensures forall k :: 0 < k < |history| ==>
      markers[k] == ChangeString(history[k - 1].rank - history[k].rank)
    ensures forall k :: 0 < k < |history| ==>
      ParseChange(markers[k]) == Some(history[k - 1].rank - history[k].rank)
  {
    markers := [];
    var prevRank: Option<int> := None;
    for i := 0 to |history|
      invariant |markers| == i
      invariant i > 0 ==> markers[0] == "" && prevRank == Some(history[i - 1].rank)
      invariant i == 0 ==> prevRank.None?
      invariant forall k :: 0 < k < i ==> markers[k] == ChangeString(history[k - 1].rank - history[k].rank)
    {
      var record := history[i];
      var change := "";
      if prevRank.Some? {
        var diff := prevRank.value - record.rank;
        if diff > 0 {
          change := [Up] + NatToString(diff);
        } else if diff < 0 {
          change := [Down] + NatToString(-diff);
        } else {
          change := Unchanged;
        }
        assert change == ChangeString(diff);
      }
      prevRank := Some(record.rank);
      markers := markers + [change];
    }
    forall k | 0 < k < |history|
      ensures ParseChange(markers[k]) == Some(history[k - 1].rank - history[k].rank)
    {
      ParseChangeString(history[k - 1].rank - history[k].rank);
    }
  }

  // ---------------------------------------------------------------------
  // Descriptions

  const DescriptionLimit := 80
  const Ellipsis := "..."

  /** A description longer than the limit is cut to its first 80
      characters followed by "..."; a shorter one is shown whole. */
  function ShortDescription(d: string): (r: string)
    ensures |d| <= DescriptionLimit ==> r == d
    ensures |r| <= DescriptionLimit + |Ellipsis|
    ensures |d| > DescriptionLimit ==>
      |r| == DescriptionLimit + |Ellipsis| && r[..DescriptionLimit] == d[..DescriptionLimit] && r[DescriptionLimit..] == Ellipsis
  {
    if |d| > DescriptionLimit then d[..DescriptionLimit] + Ellipsis else d
  }

  /** Shortening a shortened description changes nothing more. */
  lemma ShortDescriptionIdempotent(d: string)
    ensures ShortDescription(ShortDescription(d)) == ShortDescription(d)
  {
    if |d| > DescriptionLimit {
      var r := ShortDescription(d);
      assert r[..DescriptionLimit] == d[..DescriptionLimit];
    }
  }

  /** The description line of `list_agents` is shown only for a non-empty
      description. */
  function DescriptionShown(description: Option<string>): (r: Option<string>)
    ensures r.Some? <==> description.Some? && description.value != ""
    ensures r.Some? ==> r.value == ShortDescription(description.value)
  {
    if description.Some? && description.value != "" then Some(ShortDescription(description.value)) else None
  }
}
