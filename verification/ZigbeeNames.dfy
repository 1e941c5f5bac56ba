/** The names that Zigbee devices may be given, and the names that the registry takes over
    from a device list, of src/ventilation_core/infrastructure/zigbee_managed_monitor.py. */
module ZigbeeNames {
  import opened Common
  import opened ZigbeeRoleStore
  import opened ZigbeeRoles

  /** By its ASCII code. */
  predicate IsLetterOrDigit(c: char) {
    var code := c as int;
    65 <= code <= 90 || 97 <= code <= 122 || 48 <= code <= 57
  }

  predicate InCapitals(c: char) {
    'A' <= c <= 'Z'
  }

  function Lower(c: char): char {
    if InCapitals(c) then c + ' ' else c
  }

  function Lowered(s: string): (r: string)
    ensures |r| == |s| && forall i :: 0 <= i < |s| ==> r[i] == Lower(s[i])
  {
    seq(|s|, i requires 0 <= i < |s| => Lower(s[i]))
  }

  lemma LettersAndDigits(c: char)
    ensures IsAlnum(c) <==> IsLetterOrDigit(c)
  {
  }

  /** A new name has at most 64 characters, letters, digits, underscores, dots and hyphens,
      the first a letter or digit; it is not "bridge" in any case, and not reserved. */
  lemma NameAllowedMeaning(name: string)
    ensures NameAllowed(name) <==>
            && 1 <= |name| <= 64 && IsLetterOrDigit(name[0])
            && (forall i :: 0 <= i < |name| ==>
                  IsLetterOrDigit(name[i]) || name[i] == '_' || name[i] == '.' || name[i] == '-')
            && Lowered(name) != "bridge" && !("__unassigned_" <= name)
  {
    forall c ensures IsAlnum(c) <==> IsLetterOrDigit(c) { LettersAndDigits(c); }
    assert forall c :: IsNameChar(c) <==> IsAlnum(c) || c == '_' || c == '.' || c == '-';
    hide IsAlnum, IsLetterOrDigit, IsNameChar;
    BridgeInAnyCase(name);
  }

  lemma BridgeInAnyCase(name: string)
    ensures Lowered(name) == "bridge" <==>
            |name| == 6 && name[0] in "bB" && name[1] in "rR" && name[2] in "iI" && name[3] in "dD" &&
            name[4] in "gG" && name[5] in "eE"
  {
    var low := Lowered(name);
    if |name| == 6 {
      assert forall i :: 0 <= i < 6 ==> low[i] == Lower(name[i]);
      assert low == [low[0], low[1], low[2], low[3], low[4], low[5]];
    }
  }

  // ----- names from a device list

  ghost predicate LastNamed(inventory: seq<Device>, ieee: string, name: string, i: int) {
    && 0 <= i < |inventory| && inventory[i].ieee == ieee && inventory[i].name == name
    && forall j :: i < j < |inventory| ==> inventory[j].ieee != ieee
  }

  /** A registered device takes the name of the last device of the list with its address,
      and keeps its own when the list does not have it. */
  lemma {:induction false} SyncedNameMeaning(inventory: seq<Device>, ieee: string, name: string)
    ensures if exists d :: d in inventory && d.ieee == ieee
            then exists i :: LastNamed(inventory, ieee, SyncedName(inventory, ieee, name), i)
            else SyncedName(inventory, ieee, name) == name
    decreases |inventory|
  {
    if inventory != [] {
      var front, last := inventory[..|inventory| - 1], inventory[|inventory| - 1];
      assert inventory == front + [last];
      if last.ieee == ieee {
        assert SyncedName(inventory, ieee, name) == last.name;
        assert LastNamed(inventory, ieee, last.name, |front|);
      } else {
        SyncedNameMeaning(front, ieee, name);
        assert SyncedName(inventory, ieee, name) == SyncedName(front, ieee, name);
        if i :| LastNamed(front, ieee, SyncedName(front, ieee, name), i) {
          assert LastNamed(inventory, ieee, SyncedName(front, ieee, name), i);
        }
      }
    }
  }
}
