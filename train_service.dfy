/** TrainService: the train catalog, its route search, its lookup by train
    id and its insert-or-replace. */
module Trains {
  import opened Wrappers
  import opened Strings
  import opened Sequences
  import opened Entities

  /** The comparison both lookups use: train ids match ignoring case. */
  predicate IdMatches(t: Train, trainId: string)
  {
    EqualsIgnoreCase(t.trainId, trainId)
  }

  /** The loop of findTrainIndex, as a function: the least index whose train
      id matches, or -1. */
  function FirstIdIndex(trains: seq<Train>, trainId: string): (i: int)
    ensures -1 <= i < |trains|
    ensures i == -1 <==> forall k :: 0 <= k < |trains| ==> !IdMatches(trains[k], trainId)
    ensures 0 <= i ==> IdMatches(trains[i], trainId)
    ensures forall k :: 0 <= k < i ==> !IdMatches(trains[k], trainId)
  {
    if trains == [] then -1
    else if IdMatches(trains[0], trainId) then 0
    else
      var j := FirstIdIndex(trains[1..], trainId);
      if j < 0 then -1 else j + 1
  }

  /** The stream of findByTrainId: filter on the id, then take the first. */
  function FirstWithId(trains: seq<Train>, trainId: string): (r: Option<Train>)
    ensures r.None? <==> forall k :: 0 <= k < |trains| ==> !IdMatches(trains[k], trainId)
    ensures r.Some? ==> r.value in trains && IdMatches(r.value, trainId)
  {
    if trains == [] then None
    else if IdMatches(trains[0], trainId) then Some(trains[0])
    else FirstWithId(trains[1..], trainId)
  }

  /** The stream lookup and the index loop find the same train. */
  lemma {:induction false} FirstWithIdAgrees(trains: seq<Train>, trainId: string)
    ensures var i := FirstIdIndex(trains, trainId);
      FirstWithId(trains, trainId) == if i < 0 then None else Some(trains[i])
  {
    if trains != [] && !IdMatches(trains[0], trainId) {
      FirstWithIdAgrees(trains[1..], trainId);
    }
  }

  /** The first occurrence of b in the station list comes after some
      occurrence of a: an independent reading of "a lies upstream of b". */
  ghost predicate Upstream(stations: seq<string>, a: string, b: string)
  {
    exists j :: 0 <= j < |stations| && stations[j] == b && b !in stations[..j] && a in stations[..j]
  }

  /** isValidRoute. Only the two queries are lower-cased; the stored
      stations are compared as they are, and nothing is trimmed. */
  function IsValidRoute(train: Train, source: string, destination: string): (r: bool)
    ensures r <==> Upstream(train.stations, ToLowerCase(source), ToLowerCase(destination))
    ensures ToLowerCase(source) == ToLowerCase(destination) ==> !r
  {
    var stations := train.stations;
    var sourceIndex := IndexOf(stations, ToLowerCase(source));
    var destinationIndex := IndexOf(stations, ToLowerCase(destination));
    var r := sourceIndex >= 0 && destinationIndex >= 0 && sourceIndex < destinationIndex;
    assert r ==> stations[sourceIndex] in stations[..destinationIndex];
    assert r <== Upstream(stations, ToLowerCase(source), ToLowerCase(destination)) by {
      if Upstream(stations, ToLowerCase(source), ToLowerCase(destination)) {
        var j :| 0 <= j < |stations| && stations[j] == ToLowerCase(destination)
          && ToLowerCase(destination) !in stations[..j] && ToLowerCase(source) in stations[..j];
        var k :| 0 <= k < j && stations[k] == ToLowerCase(source);
        assert stations[..j][k] == ToLowerCase(source);
      }
    }
    r
  }

  /** The stream of searchTrains: keep the trains whose route is valid. */
  function FilterRoutes(trains: seq<Train>, source: string, destination: string): (r: seq<Train>)
    ensures forall k :: 0 <= k < |r| ==> IsValidRoute(r[k], source, destination)
  {
    if trains == [] then []
    else
      var rest := FilterRoutes(trains[1..], source, destination);
      if IsValidRoute(trains[0], source, destination) then [trains[0]] + rest else rest
  }

  /** The search keeps exactly the matching trains (each as often as the
      catalog holds it) and keeps them in catalog order. */
  lemma {:induction false} FilterRoutesIsOrderedFilter(trains: seq<Train>, source: string, destination: string)
    ensures var r := FilterRoutes(trains, source, destination);
      && SubsequenceOf(r, trains)
      && forall t :: multiset(r)[t] == if IsValidRoute(t, source, destination) then multiset(trains)[t] else 0
  {
    if trains != [] {
      FilterRoutesIsOrderedFilter(trains[1..], source, destination);
      assert trains == [trains[0]] + trains[1..];
      var rest := FilterRoutes(trains[1..], source, destination);
      var r := FilterRoutes(trains, source, destination);
      if IsValidRoute(trains[0], source, destination) {
        assert r == [trains[0]] + rest && r[1..] == rest;
      } else {
        assert r == rest;
        SubsequenceSkip(r, trains);
      }
    }
  }

  /** The catalog after saveOrUpdateTrain(t): the first train whose id
      matches is replaced by t, or t is appended when none matches. */
  function Upserted(trains: seq<Train>, t: Train): (r: seq<Train>)
    ensures FirstIdIndex(trains, t.trainId) >= 0 ==>
      |r| == |trains| && r[FirstIdIndex(trains, t.trainId)] == t
      && forall k :: 0 <= k < |trains| && k != FirstIdIndex(trains, t.trainId) ==> r[k] == trains[k]
    ensures FirstIdIndex(trains, t.trainId) < 0 ==> r == trains + [t]
  {
    var i := FirstIdIndex(trains, t.trainId);
    if i >= 0 then trains[i := t] else trains + [t]
  }

  /** After saveOrUpdateTrain(t), looking t's id up finds t itself. */
  lemma UpsertedThenFound(trains: seq<Train>, t: Train)
    ensures FirstWithId(Upserted(trains, t), t.trainId) == Some(t)
  {
    var r := Upserted(trains, t);
    assert IdMatches(t, t.trainId);
    var i := FirstIdIndex(trains, t.trainId);
    var k := if i >= 0 then i else |trains|;
    assert r[k] == t;
    assert forall j :: 0 <= j < k ==> r[j] == trains[j];
    assert FirstIdIndex(r, t.trainId) == k;
    FirstWithIdAgrees(r, t.trainId);
  }

  /** The catalog of trains. Loading and saving the JSON file are not
      modelled: the constructor takes the loaded list, saving does nothing. */
  class TrainService {
    var trains: seq<Train>

    /** A missing file loads as the empty list; any other file as its list. */
    constructor (stored: seq<Train>)
      ensures trains == stored
    {
      trains := stored;
    }

    /** searchTrains: the trains on which source lies upstream of
        destination, in catalog order. */
    function SearchTrains(source: string, destination: string): (r: seq<Train>)
      reads this
      ensures SubsequenceOf(r, trains)
      ensures forall k :: 0 <= k < |r| ==> IsValidRoute(r[k], source, destination)
      ensures forall k :: 0 <= k < |trains| && IsValidRoute(trains[k], source, destination) ==>
        multiset(r)[trains[k]] == multiset(trains)[trains[k]]
    {
      FilterRoutesIsOrderedFilter(trains, source, destination);
      FilterRoutes(trains, source, destination)
    }

    /** findTrainIndex: the least index whose train id matches ignoring
        case, or -1. */
    method FindTrainIndex(trainId: string) returns (i: int)
      ensures -1 <= i < |trains|
      ensures 0 <= i ==> IdMatches(trains[i], trainId)
      ensures forall k :: 0 <= k < |trains| && (i < 0 || k < i) ==> !IdMatches(trains[k], trainId)
      ensures i == FirstIdIndex(trains, trainId)
    {
      i := 0;
      while i < |trains|
        invariant 0 <= i <= |trains|
        invariant forall k :: 0 <= k < i ==> !IdMatches(trains[k], trainId)
      {
        if EqualsIgnoreCase(trains[i].trainId, trainId) {
          return;
        }
        i := i + 1;
      }
      return -1;
    }

    /** findByTrainId: the train at the index findTrainIndex gives, or None
        when that index is -1. */
    function FindByTrainId(trainId: string): (r: Option<Train>)
      reads this
      ensures var i := FirstIdIndex(trains, trainId);
        r == if i < 0 then None else Some(trains[i])
    {
      FirstWithIdAgrees(trains, trainId);
      FirstWithId(trains, trainId)
    }

    /** saveOrUpdateTrain: replace the first train with a matching id, or
        append; afterwards the train is found by its own id. */
    method SaveOrUpdateTrain(train: Train)
      modifies this`trains
      ensures trains == Upserted(old(trains), train)
      ensures FindByTrainId(train.trainId) == Some(train)
    {
      var index := FindTrainIndex(train.trainId);
      if index >= 0 {
        trains := trains[index := train];
      } else {
        trains := trains + [train];
      }
      UpsertedThenFound(old(trains), train);
      FirstWithIdAgrees(trains, train.trainId);
    }
  }
}
