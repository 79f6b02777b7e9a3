/** Finding the sets of a backup directory and telling complete ones apart. */
module Catalog {
  import opened Wrappers
  import opened Naming

  // -------------------------------------------------------------------- part discovery

  /** A part file: its number and its name. */
  datatype Found = Found(part: nat, name: string)

  ghost predicate Ascending(parts: seq<Found>) {
    forall i, j :: 0 <= i < j < |parts| ==> parts[i].part < parts[j].part
  }

  /** sort.Slice by part number. */
  function SortByPart(parts: seq<Found>): seq<Found> {
    if |parts| == 0 then [] else InsertByPart(SortByPart(parts[..|parts| - 1]), parts[|parts| - 1])
  }

  function InsertByPart(sorted: seq<Found>, f: Found): seq<Found> {
    if |sorted| == 0 || sorted[|sorted| - 1].part <= f.part then sorted + [f]
    else InsertByPart(sorted[..|sorted| - 1], f) + [sorted[|sorted| - 1]]
  }

  lemma {:induction false} InsertKeeps(sorted: seq<Found>, f: Found)
    requires Ascending(sorted) && forall x :: x in sorted ==> x.part != f.part
    ensures Ascending(InsertByPart(sorted, f))
    ensures forall x :: x in InsertByPart(sorted, f) <==> x in sorted || x == f
  {
    if |sorted| == 0 || sorted[|sorted| - 1].part <= f.part {
      assert |sorted| > 0 ==> sorted[|sorted| - 1] in sorted;
    } else {
      var init, last := sorted[..|sorted| - 1], sorted[|sorted| - 1];
      InsertKeeps(init, f);
      assert sorted == init + [last];
      assert forall x :: x in InsertByPart(init, f) ==> x.part < last.part;
    }
  }

  lemma {:induction false} SortKeeps(parts: seq<Found>)
    requires forall i, j :: 0 <= i < j < |parts| ==> parts[i].part != parts[j].part
    ensures Ascending(SortByPart(parts))
    ensures forall x :: x in SortByPart(parts) <==> x in parts
  {
    if |parts| > 0 {
      var init, last := parts[..|parts| - 1], parts[|parts| - 1];
      SortKeeps(init);
      forall x | x in init
        ensures x.part != last.part
      {
        var i :| 0 <= i < |init| && init[i] == x;
        assert parts[i] == x;
      }
      InsertKeeps(SortByPart(init), last);
      assert parts == init + [last];
    }
  }

  /** The parts of a set among these names, in the order of the names. */
  function PartsAmong(names: seq<string>, e: BackupEntry): seq<Found> {
    if |names| == 0 then []
    else
      var n := names[|names| - 1];
      var before := PartsAmong(names[..|names| - 1], e);
      match ParsePartFileName(n)
      case Some((entry, part)) => if entry == e then before + [Found(part, n)] else before
      case None => before
  }

  /** listParts: the parts of every set in the directory, by part number. */
  method ListParts(names: seq<string>) returns (all: map<BackupEntry, seq<Found>>)
    ensures forall e :: e in all <==> PartsAmong(names, e) != []
    ensures forall e :: e in all ==> all[e] == SortByPart(PartsAmong(names, e))
  {
    hide ParsePartFileName, SortByPart;
    var bySet: map<BackupEntry, seq<Found>> := map[];
    for i := 0 to |names|
      invariant forall e :: e in bySet <==> PartsAmong(names[..i], e) != []
      invariant forall e :: e in bySet ==> bySet[e] == PartsAmong(names[..i], e)
    {
      assert names[..i + 1][..i] == names[..i];
      var parsed := ParsePartFileName(names[i]);
      if parsed.Some? {
        var (entry, part) := parsed.value;
        var before := if entry in bySet then bySet[entry] else [];
        bySet := bySet[entry := before + [Found(part, names[i])]];
      }
    }
    assert names[..|names|] == names;
    all := map e | e in bySet :: SortByPart(bySet[e]);
  }

  /** In a directory, where names differ, the parts found for a set are exactly
      the printed part names that are there, in ascending order and each once. */
  lemma PartsFound(names: seq<string>, e: BackupEntry)
    requires forall i, j :: 0 <= i < j < |names| ==> names[i] != names[j]
    ensures Ascending(SortByPart(PartsAmong(names, e)))
    ensures forall f :: f in SortByPart(PartsAmong(names, e)) <==>
              f.name in names && f.name == PartName(e, f.part) && Printable(e, f.part)
  {
    AmongIs(names, e);
    SortKeeps(PartsAmong(names, e));
    hide PartsAmong, SortByPart, PartName, Printable;
  }

  lemma {:induction false} AmongIs(names: seq<string>, e: BackupEntry)
    requires forall i, j :: 0 <= i < j < |names| ==> names[i] != names[j]
    ensures var parts := PartsAmong(names, e);
            && (forall f :: f in parts <==> f.name in names && f.name == PartName(e, f.part) && Printable(e, f.part))
            && (forall i, j :: 0 <= i < j < |parts| ==> parts[i].part != parts[j].part)
  {
    if |names| > 0 {
      var n, init := names[|names| - 1], names[..|names| - 1];
      AmongIs(init, e);
      assert names == init + [n];
      ParsedIsPrinted(n, e);
      hide PartName, Printable, ParsePartFileName;
      forall f | f in PartsAmong(init, e)
        ensures f.name != n
      {
        var i :| 0 <= i < |init| && init[i] == f.name;
        assert names[i] == f.name;
      }
    }
  }

  /** A name parses to a part of a set exactly when it is its printed name. */
  lemma ParsedIsPrinted(n: string, e: BackupEntry)
    ensures forall part: nat :: ParsePartFileName(n) == Some((e, part)) <==> n == PartName(e, part) && Printable(e, part)
  {
    forall part: nat
      ensures ParsePartFileName(n) == Some((e, part)) <==> n == PartName(e, part) && Printable(e, part)
    {
      if ParsePartFileName(n) == Some((e, part)) {
        ParseThenPrint(n);
        assert PartName(e, part) + "" == PartName(e, part);
      } else if n == PartName(e, part) && Printable(e, part) {
        PrintThenParse(e, part);
      }
    }
    hide ParsePartFileName, PartName, Printable;
  }

  // ------------------------------------------------------------------------- continuity

  datatype Continuity = Continuous | NoParts | MissingParts(missing: seq<nat>)

  /** checkContinuity of ascending part numbers. */
  method CheckContinuity(parts: seq<nat>) returns (r: Continuity)
    requires forall i :: 0 <= i < |parts| ==> parts[i] >= 1
    requires forall i, j :: 0 <= i < j < |parts| ==> parts[i] < parts[j]
    ensures r.NoParts? <==> |parts| == 0
    ensures r.Continuous? <==> |parts| > 0 && forall i :: 0 <= i < |parts| ==> parts[i] == i + 1
    ensures r.MissingParts? ==>
              && (forall x :: x in r.missing <==> 1 <= x < parts[|parts| - 1] && x !in parts)
              && (forall i, j :: 0 <= i < j < |r.missing| ==> r.missing[i] < r.missing[j])
  {
    if |parts| == 0 {
      return NoParts;
    }
    var missing: seq<nat>, next := [], 1;
    for i := 0 to |parts|
      invariant next >= 1 && (if i == 0 then next == 1 else next == parts[i - 1] + 1)
      invariant forall x :: x in missing <==> 1 <= x < next && x !in parts[..i]
      invariant forall j, k :: 0 <= j < k < |missing| ==> missing[j] < missing[k]
      invariant forall j :: 0 <= j < |missing| ==> missing[j] < next
      invariant missing == [] <==> forall j :: 0 <= j < i ==> parts[j] == j + 1
    {
      var before := next;
      while next < parts[i]
        invariant before <= next <= parts[i]
        invariant forall x :: x in missing <==> 1 <= x < next && x !in parts[..i]
        invariant forall j, k :: 0 <= j < k < |missing| ==> missing[j] < missing[k]
        invariant forall j :: 0 <= j < |missing| ==> missing[j] < next
        invariant missing == [] <==> next == before && forall j :: 0 <= j < i ==> parts[j] == j + 1
      {
        missing := missing + [next];
        next := next + 1;
      }
      next := parts[i] + 1;
      assert parts[..i + 1] == parts[..i] + [parts[i]];
    }
    assert parts[..|parts|] == parts;
    return if |missing| > 0 then MissingParts(missing) else Continuous;
  }
}
