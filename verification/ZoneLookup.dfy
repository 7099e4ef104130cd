/** Which of the managed zones covers a name (daemon/dns_zone_lookup.py:17-20). */
module ZoneLookup {
  import opened Text
  import opened CloudflareValues

  /** The zone itself, or a name that ends in a dot and the zone. */
  predicate Covers(zone: string, name: string) {
    name == zone || (|name| > |zone| && name[|name| - |zone| - 1..] == "." + zone)
  }

  /** The name is the zone, or has labels in front of it. */
  ghost predicate Under(zone: string, name: string) {
    name == zone || exists labels: string :: name == labels + "." + zone
  }

  lemma {:induction false} CoversExactly(zone: string, name: string)
    ensures Covers(zone, name) <==> Under(zone, name)
  {
    if Covers(zone, name) && name != zone {
      assert name == name[..|name| - |zone| - 1] + "." + zone;
    }
    if labels: string :| name == labels + "." + zone {
      assert name[|name| - |zone| - 1..] == "." + zone;
    }
  }

  /** Zones of one length that cover a name are the same zone, so the longest one is unique. */
  lemma {:induction false} CoveringIsUnique(a: string, b: string, name: string)
    requires Covers(a, name) && Covers(b, name) && |a| == |b|
    ensures a == b
  {
    assert ("." + a)[1..] == a && ("." + b)[1..] == b;
  }

  /** A longer zone that covers the name lies in a shorter one. */
  lemma {:induction false} CoveringNests(a: string, b: string, name: string)
    requires Covers(a, name) && Covers(b, name) && |a| < |b|
    ensures Covers(a, b)
  {
    var n := |name| - |b|;
    assert b == name[n..] by {
      if name != b {
        assert ("." + b)[1..] == b && name[n - 1..][1..] == name[n..];
      } else {
        assert name[0..] == name;
      }
    }
    assert b[|b| - |a| - 1..] == name[|name| - |a| - 1..];
  }

  /** In a zone that covers it, a name is rebuilt from its label, so a record written there has that name. */
  lemma {:induction false} LabelIsRebuilt(zone: string, name: string)
    requires InZone(name, zone)
    ensures Covers(zone, name) && RecordName(zone, LabelWithinZone(name, zone)) == name
  {
    LabelRoundTrip(name, zone);
  }

  /** `find_managed_zone`: the longest zone that covers the name, if any does; which one does not depend on the
      order in which zones of one length are listed. A record written there under the name's label gets the name. */
  method FindManagedZone(zones: seq<string>, name: string) returns (found: Option<string>)
    ensures found.None? <==> forall z | z in zones :: !Under(z, name)
    ensures found.Some? ==> found.value in zones && Under(found.value, name)
    ensures found.Some? ==> forall z | z in zones && Under(z, name) :: |z| < |found.value| || z == found.value
    ensures found.Some? ==> forall z | z in zones && Under(z, name) :: Under(z, found.value)
    ensures found.Some? && InZone(name, found.value) ==>
              RecordName(found.value, LabelWithinZone(name, found.value)) == name
  {
    hide Under;
    forall z: string ensures Covers(z, name) <==> Under(z, name) {
      CoversExactly(z, name);
    }
    found := None;
    for i := 0 to |zones|
      invariant found.None? <==> forall k | 0 <= k < i :: !Covers(zones[k], name)
      invariant found.Some? ==> found.value in zones && Covers(found.value, name)
      invariant found.Some? ==> forall k | 0 <= k < i && Covers(zones[k], name) :: |zones[k]| <= |found.value|
    {
      if Covers(zones[i], name) && (found.None? || |zones[i]| > |found.value|) {
        found := Some(zones[i]);
      }
    }
    if found.Some? {
      forall z | z in zones && Covers(z, name)
        ensures (|z| < |found.value| || z == found.value) && Under(z, found.value) {
        CoversExactly(z, found.value);
        if |z| == |found.value| {
          CoveringIsUnique(z, found.value, name);
        } else {
          CoveringNests(z, found.value, name);
        }
      }
      if InZone(name, found.value) {
        LabelIsRebuilt(found.value, name);
      }
    }
  }
}
