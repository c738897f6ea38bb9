/** Which joint an interface key like "left/position" selects. */
module Keys {
  import opened Joints
  import opened Cycle

  lemma {:induction false} FirstSlash(key: string)
    ensures var i := Separator(key);
            && (forall k | 0 <= k < i :: key[k] != '/')
            && (i < |key| ==> key[i] == '/')
    decreases |key|
  {
    if key != "" && key[0] != '/' {
      FirstSlash(key[1..]);
    }
  }

  /** The key is about this joint: its name and a slash, and something more or nothing. A key without a
      slash is about a joint without a name. */
  predicate About(key: string, name: string) { name + "/" <= key || (name == "" && '/' !in key) }

  lemma PrefixCut(key: string, name: string)
    requires '/' !in name && name + "/" <= key
    ensures SplitKey(key).0 == name && key == name + "/" + SplitKey(key).1
  {
    FirstSlash(key);
    assert key[|name|] == '/' && key[..|name|] == name;
    assert forall k | 0 <= k < |name| :: key[k] == key[..|name|][k] && name[k] in name;
    assert Separator(key) == |name|;
  }

  /** A key consists of a name without a slash, a slash and an interface, in one way. */
  lemma SplitExactly(key: string, name: string, iface: string)
    requires '/' !in name
    ensures SplitKey(key).0 == name <==> About(key, name)
    ensures iface != "" ==> (SplitKey(key) == (name, iface) <==> key == name + "/" + iface)
  {
    var i := Separator(key);
    FirstSlash(key);
    if name + "/" <= key {
      PrefixCut(key, name);
      var rest := SplitKey(key).1;
      assert (name + "/" + iface)[|name| + 1..] == iface && (name + "/" + rest)[|name| + 1..] == rest;
    } else {
      assert name + "/" <= name + "/" + iface;
    }
    if i < |key| {
      assert key == key[..i] + "/" + key[i + 1..];
    }
  }

  ghost predicate DistinctNames(joints: seq<Joint>) {
    && (forall i | 0 <= i < |joints| :: '/' !in joints[i].cfg.name)
    && forall i, k | 0 <= i < k < |joints| :: joints[i].cfg.name != joints[k].cfg.name
  }

  lemma {:induction false} FindExactly(joints: seq<Joint>, name: string, i: nat)
    requires i < |joints| && forall k, m | 0 <= k < m < |joints| :: joints[k].cfg.name != joints[m].cfg.name
    ensures FindJoint(joints, name) == i <==> joints[i].cfg.name == name
    decreases |joints|
  {
    if joints[0].cfg.name != name && i > 0 {
      FindExactly(joints[1..], name, i - 1);
    }
  }

  lemma RequestedExactly(joints: seq<Joint>, keys: seq<string>, i: nat, iface: string)
    requires i < |joints| && DistinctNames(joints) && iface != ""
    ensures Requested(joints, keys, i, iface) <==> joints[i].cfg.name + "/" + iface in keys
  {
    hide FindJoint, SplitKey;
    var name := joints[i].cfg.name;
    forall k | 0 <= k < |keys|
      ensures FindJoint(joints, SplitKey(keys[k]).0) == i && SplitKey(keys[k]).1 == iface <==>
              keys[k] == name + "/" + iface
    {
      FindExactly(joints, SplitKey(keys[k]).0, i);
      SplitExactly(keys[k], name, iface);
    }
  }

  lemma MentionedExactly(joints: seq<Joint>, keys: seq<string>, i: nat)
    requires i < |joints| && DistinctNames(joints)
    ensures Mentioned(joints, keys, i) <==> exists k | 0 <= k < |keys| :: About(keys[k], joints[i].cfg.name)
  {
    hide FindJoint, SplitKey, About;
    forall k | 0 <= k < |keys|
      ensures FindJoint(joints, SplitKey(keys[k]).0) == i <==> About(keys[k], joints[i].cfg.name)
    {
      FindExactly(joints, SplitKey(keys[k]).0, i);
      SplitExactly(keys[k], joints[i].cfg.name, "");
    }
  }

  /** The level of a joint of this name: the highest started for it, none if something of it is stopped and
      nothing started, and otherwise the one it has. */
  ghost function LevelFor(name: string, level: Level, starts: seq<string>, stops: seq<string>): Level {
    if name + "/position" in starts then POSITION
    else if name + "/velocity" in starts then VELOCITY
    else if name + "/effort" in starts then EFFORT
    else if exists k | 0 <= k < |stops| :: About(stops[k], name) then UNDEFINED
    else level
  }

  /** Preparation changes the levels, by the names of the joints, and nothing else. */
  lemma PrepareMeaning(s: Hw, starts: seq<string>, stops: seq<string>, i: nat)
    requires i < |s.joints| && DistinctNames(s.joints)
    ensures var t, j := PrepareSpec(s, starts, stops), s.joints[i];
            && t == s.(joints := t.joints) && |t.joints| == |s.joints|
            && t.joints[i] == j.(level := LevelFor(j.cfg.name, j.level, starts, stops))
  {
    hide Requested, Mentioned, About;
    RequestedExactly(s.joints, starts, i, "position");
    RequestedExactly(s.joints, starts, i, "velocity");
    RequestedExactly(s.joints, starts, i, "effort");
    MentionedExactly(s.joints, stops, i);
    Slashed(s.joints[i].cfg.name);
  }

  lemma Slashed(name: string)
    ensures name + "/" + "position" == name + "/position"
    ensures name + "/" + "velocity" == name + "/velocity"
    ensures name + "/" + "effort" == name + "/effort"
  {
  }
}
