/**
 * The per-pipe view model: the displayed copy of a snapshot, the three
 * highlight flags, and the text forms of the connection counts and the ACL.
 *
 * The clock enters as the `now` text the caller passes; the delayed resets
 * of the highlight flags are timers and are not modelled. Resource strings
 * and the rendering of an ACL rule enter as parameters.
 */
module PipeViews {
  import opened FixedWidth
  import opened Decimal
  import opened Text
  import opened AclModels
  import opened PipeModels

  /** The `Created` column: the moment the view appeared, or "up to" the moment of the first listing. */
  datatype CreatedStamp = At(now: string) | UpTo(now: string)

  /**
   * A `PipeViewModel`. `id` stands for the object's identity, which the
   * explorer compares when an expiry fires.
   */
  datatype PipeView = PipeView(
    id: nat,
    host: string,
    name: string,
    path: string,
    created: CreatedStamp,
    hint: string,
    maxConnections: string,
    activeConnections: uint32,
    connections: string,
    acl: Acl,
    beingRemoved: bool,
    recentlyUpdated: bool,
    recentlyAdded: bool)

  /** The infinity sign shown for an unlimited number of instances. */
  const Infinity: string := "\U{221E}"

  /** `MaxConnections`: the decimal count, or the infinity sign for a negative one. */
  function MaxText(max: int32): (s: string)
    ensures max >= 0 ==> AllDigits(s) && DigitsValue(s) == max as int
    ensures max < 0 <==> s == Infinity
  {
    if max >= 0 then
      NatToStringRoundTrip(max as int);
      NatToString(max as int)
    else Infinity
  }

  /** Two limits display alike exactly when they are equal or both unlimited. */
  lemma MaxTextInjective(a: int32, b: int32)
    ensures MaxText(a) == MaxText(b) <==> a == b || (a < 0 && b < 0)
  {
  }

  /** `Connections`: "{active} / {max}". */
  function ConnectionsText(active: uint32, max: string): (s: string)
    ensures var n := |NatToString(active as int)|;
      && n < |s| && AllDigits(s[..n]) && DigitsValue(s[..n]) == active as int
      && s[n..] == " / " + max
  {
    var digits := NatToString(active as int);
    NatToStringRoundTrip(active as int);
    assert (digits + " / " + max)[..|digits|] == digits;
    digits + " / " + max
  }

  /** A run of digits followed by a space is recovered from the text it starts. */
  lemma DigitPrefixDetermined(a: string, b: string, x: string, y: string)
    requires |a| > 0 && AllDigits(a) && |b| > 0 && AllDigits(b)
    requires |x| > 0 && x[0] == ' ' && |y| > 0 && y[0] == ' '
    requires a + x == b + y
    ensures a == b && x == y
  {
    var s := a + x;
    assert forall k :: 0 <= k < |a| ==> IsDigit(s[k]);
    assert forall k :: 0 <= k < |b| ==> IsDigit(s[k]) by {
      assert s == b + y;
    }
    assert s[|a|] == ' ' && s[|b|] == ' ' by {
      assert s == b + y;
    }
    assert |a| == |b|;
    assert a == (a + x)[..|a|];
    assert b == (b + y)[..|b|];
    assert x == (a + x)[|a|..];
  }

  /** The connection text determines both counts it shows. */
  lemma ConnectionsTextInjective(a1: uint32, m1: string, a2: uint32, m2: string)
    requires ConnectionsText(a1, m1) == ConnectionsText(a2, m2)
    ensures a1 == a2 && m1 == m2
  {
    var d1, d2 := NatToString(a1 as int), NatToString(a2 as int);
    assert d1 + (" / " + m1) == d2 + (" / " + m2) by {
      assert d1 + " / " + m1 == d1 + (" / " + m1);
      assert d2 + " / " + m2 == d2 + (" / " + m2);
    }
    DigitPrefixDetermined(d1, d2, " / " + m1, " / " + m2);
    NatToStringInjective(a1 as int, a2 as int);
    assert m1 == (" / " + m1)[3..];
    assert m2 == (" / " + m2)[3..];
  }

  /** `SyncWithModel` has brought the view up to the snapshot. */
  predicate Synced(v: PipeView, m: PipeModel) {
    && v.activeConnections == m.activeConnections
    && v.maxConnections == MaxText(m.maxConnections)
    && v.connections == ConnectionsText(m.activeConnections, MaxText(m.maxConnections))
    && v.hint == m.hint
    && v.acl == m.acl
  }

  /** `SyncWithModel`. */
  function SyncWithModel(v: PipeView, m: PipeModel): (r: PipeView)
    ensures Synced(r, m)
    ensures r.id == v.id && r.host == v.host && r.name == v.name && r.path == v.path && r.created == v.created
    ensures r.beingRemoved == v.beingRemoved && r.recentlyAdded == v.recentlyAdded && r.recentlyUpdated == v.recentlyUpdated
  {
    var max := MaxText(m.maxConnections);
    v.(activeConnections := m.activeConnections, maxConnections := max,
       connections := ConnectionsText(m.activeConnections, max), hint := m.hint, acl := m.acl)
  }

  /** A view is never highlighted while it is being removed. */
  predicate FlagsConsistent(v: PipeView) {
    v.beingRemoved ==> !v.recentlyAdded && !v.recentlyUpdated
  }

  /** The constructor, with the new object's identity and the current time as inputs. */
  function NewView(m: PipeModel, markAsRecentlyAdded: bool, id: nat, now: string): (v: PipeView)
    ensures v.id == id && v.host == m.host && v.name == m.name && v.path == Path(m)
    ensures v.recentlyAdded <==> markAsRecentlyAdded
    ensures !v.beingRemoved && !v.recentlyUpdated
    ensures v.created == (if markAsRecentlyAdded then At(now) else UpTo(now))
    ensures Synced(v, m) && FlagsConsistent(v)
  {
    var created := if markAsRecentlyAdded then At(now) else UpTo(now);
    var blank := PipeView(id, m.host, m.name, Path(m), created, "", "", 0, "", EmptyAcl,
                          false, false, markAsRecentlyAdded);
    SyncWithModel(blank, m)
  }

  /** `MarkForRemoval`: only the flags change. */
  function MarkForRemoval(v: PipeView): (r: PipeView)
    ensures r.beingRemoved && !r.recentlyAdded && !r.recentlyUpdated
    ensures r == v.(beingRemoved := r.beingRemoved, recentlyAdded := r.recentlyAdded, recentlyUpdated := r.recentlyUpdated)
    ensures FlagsConsistent(r)
  {
    v.(recentlyAdded := false, recentlyUpdated := false, beingRemoved := true)
  }

  /**
   * `Update`: a view being removed comes back as newly added; otherwise a
   * view that is not newly added is highlighted as updated.
   */
  function Update(v: PipeView, m: PipeModel, now: string): (r: PipeView)
    ensures !r.beingRemoved
    ensures r.recentlyAdded <==> v.recentlyAdded || v.beingRemoved
    ensures !r.recentlyAdded ==> r.recentlyUpdated
    ensures r.recentlyAdded ==> r.recentlyUpdated == v.recentlyUpdated
    ensures r.created == (if v.beingRemoved then At(now) else v.created)
    ensures Synced(r, m) && FlagsConsistent(r)
    ensures r.id == v.id && r.host == v.host && r.name == v.name && r.path == v.path
  {
    var revived := if v.beingRemoved then v.(beingRemoved := false, recentlyAdded := true, created := At(now)) else v;
    var synced := SyncWithModel(revived, m);
    if !synced.recentlyAdded then synced.(recentlyUpdated := true) else synced
  }

  /** A view marked for removal and updated again is shown as added, not as updated. */
  lemma RevivedIsAddedNotUpdated(v: PipeView, m: PipeModel, now: string)
    ensures Update(MarkForRemoval(v), m, now).recentlyAdded
    ensures !Update(MarkForRemoval(v), m, now).recentlyUpdated
    ensures !Update(MarkForRemoval(v), m, now).beingRemoved
  {
  }

  // ----- the plain-text ACL -----

  /** The resource strings that label the three parts. */
  datatype AclLabels = AclLabels(owner: string, group: string, rules: string)

  /** `"{0}: {1}"`. */
  function Labelled(caption: string, value: string): string {
    caption + ": " + value
  }

  /** The parts shown: owner, group and rules, each only when present. */
  function PresentParts(acl: Acl, labels: AclLabels, ruleTexts: seq<string>): seq<string> {
    (if acl.owner != "" then [Labelled(labels.owner, acl.owner)] else [])
    + (if acl.group != "" then [Labelled(labels.group, acl.group)] else [])
    + (if |acl.rules| > 0 then [Labelled(labels.rules, Join(ruleTexts, "; "))] else [])
  }

  /**
   * `UpdatePlainAcl`, given each rule's rendering: the owner part, then the
   * group part, then the rules part, with ", " written after a part only
   * when a later part follows.
   */
  function PlainAcl(acl: Acl, labels: AclLabels, ruleTexts: seq<string>): (s: string)
    requires |ruleTexts| == |acl.rules|
    ensures s == "" <==> acl.owner == "" && acl.group == "" && |acl.rules| == 0
  {
    var hasRules := |acl.rules| > 0;
    var ownerPart :=
      if acl.owner != "" then
        Labelled(labels.owner, acl.owner) + (if acl.group != "" || hasRules then ", " else "")
      else "";
    var groupPart :=
      if acl.group != "" then Labelled(labels.group, acl.group) + (if hasRules then ", " else "")
      else "";
    var rulesPart := if hasRules then Labelled(labels.rules, Join(ruleTexts, "; ")) else "";
    ownerPart + groupPart + rulesPart
  }

  lemma JoinTwo(x: string, y: string, sep: string)
    ensures Join([x, y], sep) == x + sep + y
  {
    assert [x, y][1..] == [y];
  }

  lemma JoinThree(x: string, y: string, z: string, sep: string)
    ensures Join([x, y, z], sep) == x + sep + (y + sep + z)
  {
    assert [x, y, z][1..] == [y, z];
    JoinTwo(y, z, sep);
  }

  /** Up to three optional parts, with ", " written after a part only when a later part follows, are the present parts joined. */
  lemma JoinOptionalParts(o: string, g: string, r: string, hasO: bool, hasG: bool, hasR: bool)
    ensures (if hasO then o + (if hasG || hasR then ", " else "") else "")
          + (if hasG then g + (if hasR then ", " else "") else "")
          + (if hasR then r else "")
         == Join((if hasO then [o] else []) + (if hasG then [g] else []) + (if hasR then [r] else []), ", ")
  {
    var parts := (if hasO then [o] else []) + (if hasG then [g] else []) + (if hasR then [r] else []);
    if hasO && hasG && hasR {
      assert parts == [o, g, r];
      JoinThree(o, g, r, ", ");
      assert o + ", " + (g + ", ") + r == o + ", " + (g + ", " + r);
    } else if hasO && hasG {
      assert parts == [o, g];
      JoinTwo(o, g, ", ");
    } else if hasO && hasR {
      assert parts == [o, r];
      JoinTwo(o, r, ", ");
    } else if hasG && hasR {
      assert parts == [g, r];
      JoinTwo(g, r, ", ");
    } else if hasO {
      assert parts == [o];
    } else if hasG {
      assert parts == [g];
    } else if hasR {
      assert parts == [r];
    } else {
      assert parts == [];
    }
  }

  /** The plain ACL is the present parts joined with ", ": the separator sits only between parts. */
  lemma PlainAclJoinsPresentParts(acl: Acl, labels: AclLabels, ruleTexts: seq<string>)
    requires |ruleTexts| == |acl.rules|
    ensures PlainAcl(acl, labels, ruleTexts) == Join(PresentParts(acl, labels, ruleTexts), ", ")
  {
    JoinOptionalParts(Labelled(labels.owner, acl.owner), Labelled(labels.group, acl.group),
                      Labelled(labels.rules, Join(ruleTexts, "; ")),
                      acl.owner != "", acl.group != "", |acl.rules| > 0);
  }
}
