/** Which sensors have to be toggled so that a ruleset is assigned to all of them,
    or to none. */
module SensorSync {

  datatype Sensor = Sensor(hostname: string, application: string)

  function Hostnames(sensors: seq<Sensor>): (r: seq<string>)
    ensures |r| == |sensors| && forall i | 0 <= i < |r| :: r[i] == sensors[i].hostname
  {
    seq(|sensors|, i requires 0 <= i < |sensors| => sensors[i].hostname)
  }

  /** The sensors not assigned, among the first n. */
  function Missing(available: seq<Sensor>, current: seq<Sensor>, n: nat): seq<Sensor>
    requires n <= |available|
  {
    if n == 0 then []
    else Missing(available, current, n - 1) + if available[n - 1] !in current then [available[n - 1]] else []
  }

  lemma {:induction false} MissingIs(available: seq<Sensor>, current: seq<Sensor>, n: nat)
    requires n <= |available|
    ensures forall x :: x in Missing(available, current, n) <==> x in available[..n] && x !in current
  {
    if n > 0 {
      MissingIs(available, current, n - 1);
      assert available[..n] == available[..n - 1] + [available[n - 1]];
    }
  }

  ghost predicate DistinctHosts(sensors: seq<Sensor>) {
    forall i, j | 0 <= i < j < |sensors| :: sensors[i].hostname != sensors[j].hostname
  }

  ghost function SetOf(sensors: seq<Sensor>): set<Sensor> { set x | x in sensors }

  /** Toggling: an assigned sensor of that name is taken out, another put in. */
  ghost function Toggled(available: seq<Sensor>, current: seq<Sensor>, names: seq<string>): set<Sensor> {
    set x | x in available && ((x in current) != (x.hostname in names))
  }

  /** Pigeonhole: as many distinct sensors as there are are all of them. */
  lemma {:induction false} SizeOfDistinct(sensors: seq<Sensor>)
    requires DistinctHosts(sensors)
    ensures |SetOf(sensors)| == |sensors|
  {
    if |sensors| > 0 {
      var n := |sensors| - 1;
      SizeOfDistinct(sensors[..n]);
      assert SetOf(sensors) == SetOf(sensors[..n]) + {sensors[n]};
      assert sensors[n] !in sensors[..n];
    }
  }

  lemma SubsetOfSameSize(s: set<Sensor>, t: set<Sensor>)
    requires s <= t
    ensures |s| == |t| <==> s == t
  {
    assert |t - s| == |t| - |s|;
  }

  lemma SameLengthMeansAll(available: seq<Sensor>, current: seq<Sensor>)
    requires DistinctHosts(available) && DistinctHosts(current) && forall x | x in current :: x in available
    ensures |current| == |available| <==> SetOf(current) == SetOf(available)
  {
    SizeOfDistinct(available);
    SizeOfDistinct(current);
    SubsetOfSameSize(SetOf(current), SetOf(available));
  }

  lemma NamesTell(available: seq<Sensor>, some: seq<Sensor>, x: Sensor)
    requires DistinctHosts(available) && x in available && forall y | y in some :: y in available
    ensures x.hostname in Hostnames(some) <==> x in some
  {
    if x.hostname in Hostnames(some) {
      var i :| 0 <= i < |some| && some[i].hostname == x.hostname;
      assert some[i] in available;
    }
    assert forall i | 0 <= i < |some| :: Hostnames(some)[i] == some[i].hostname;
  }

  /** The check compares lengths only.  For distinct sensors, the assigned ones
      among the available, that is enough: it says "synchronized" exactly when
      the target holds, and toggling the sensors it returns reaches the target. */
  method IsRulesetSensorsFieldSynced(available: seq<Sensor>, current: seq<Sensor>, assign: bool)
    returns (synced: bool, unsynced: seq<string>)
    ensures DistinctHosts(available) && DistinctHosts(current) && (forall x | x in current :: x in available) ==>
              var target := if assign then SetOf(available) else {};
              && (synced <==> SetOf(current) == target)
              && Toggled(available, current, unsynced) == target
  {
    ghost var proper := DistinctHosts(available) && DistinctHosts(current) && forall x | x in current :: x in available;
    synced, unsynced := true, [];
    ghost var chosen: seq<Sensor> := [];
    if proper {
      SameLengthMeansAll(available, current);
    }
    MissingIs(available, current, |available|);
    assert available[..|available|] == available;
    if available != [] && current != [] {
      if |current| != |available| && assign {
        synced := false;
        chosen := Missing(available, current, |available|);
        unsynced := Hostnames(Missing(available, current, |available|));
      } else if |current| != |available| && !assign {
        synced, chosen := false, current;
        unsynced := Hostnames(current);
      } else if |current| == |available| && !assign {
        synced, chosen := false, current;
        unsynced := Hostnames(current);
      }
    } else if available != [] && current == [] {
      if assign {
        synced, chosen := false, available;
        unsynced := Hostnames(available);
      }
    }
    if proper {
      forall x | x in available ensures x.hostname in unsynced <==> x in chosen {
        NamesTell(available, chosen, x);
      }
      assert current != [] ==> current[0] in SetOf(current);
      assert available != [] ==> available[0] in SetOf(available);
    }
  }
}
