/** Badges (backend/app/Models/Rewards/RewardBadge.php): rarity table, display values,
    criteria lookup and the "earned by" query over user-badge rows. */
module Badges {
  import opened Wrappers
  import Php

  const Common := "common"
  const Uncommon := "uncommon"
  const Rare := "rare"
  const Epic := "epic"
  const Legendary := "legendary"

  /** `RARITIES`, in declaration order. */
  const Rarities: seq<string> := [Common, Uncommon, Rare, Epic, Legendary]

  /** A decoded JSON value as PHP holds it after the `array` cast. A PHP array is a
      string-keyed map: PHP normalises the keys of a list to "0", "1", ... */
  datatype Json = JNull | JBool(b: bool) | JInt(i: int) | JString(s: string) | JArray(entries: map<string, Json>)

  datatype Badge = Badge(
    id: int,
    name: string,
    rarity: string,
    pointsReward: int,
    xpReward: int,
    criteriaType: string,
    criteriaConfig: Option<Json>,
    isSecret: bool,
    isActive: bool,
    sortOrder: int)

  /** A row of reward_user_badges: which profile holds which badge. */
  datatype UserBadgeRow = UserBadgeRow(rewardUserId: int, rewardBadgeId: int)

  /** A badge created with only its identifying fields set takes the model's attribute defaults. */
  function NewBadge(id: int, name: string, criteriaType: string, criteriaConfig: Option<Json>): (b: Badge)
    ensures b.id == id && b.name == name && b.criteriaType == criteriaType && b.criteriaConfig == criteriaConfig
    ensures b.rarity == Common && b.pointsReward == 0 && b.xpReward == 0
    ensures !b.isSecret && b.isActive && b.sortOrder == 0
  {
    Badge(id, name, Common, 0, 0, criteriaType, criteriaConfig, false, true, 0)
  }

  /** The five rarities are pairwise distinct. */
  lemma RaritiesDistinct()
    ensures |Rarities| == 5
    ensures forall i, j :: 0 <= i < j < |Rarities| ==> Rarities[i] != Rarities[j]
  {
  }

  /** `rarity_color`: a colour per known rarity, the common grey for anything else. */
  function RarityColor(rarity: string): (c: string)
    ensures rarity !in Rarities ==> c == "#9ca3af"
    ensures rarity == Common ==> c == "#9ca3af"
  {
    match rarity
    case "common" => "#9ca3af"
    case "uncommon" => "#22c55e"
    case "rare" => "#3b82f6"
    case "epic" => "#a855f7"
    case "legendary" => "#f59e0b"
    case _ => "#9ca3af"
  }

  /** The colour map tells the five rarities apart, and an unknown rarity looks common. */
  lemma RarityColorsDistinct(unknown: string)
    requires unknown !in Rarities
    ensures forall i, j :: 0 <= i < j < |Rarities| ==> RarityColor(Rarities[i]) != RarityColor(Rarities[j])
    ensures RarityColor(unknown) == RarityColor(Common)
  {
  }

  /** `rarity_label`: the rarity with its first letter upper-cased. */
  function RarityLabel(rarity: string): (l: string)
    ensures |l| == |rarity|
    ensures rarity == Common ==> l == "Common"
    ensures rarity == Legendary ==> l == "Legendary"
  {
    Php.UcFirst(rarity)
  }

  /** A badge made with the defaults shows as a grey "Common" badge. */
  lemma NewBadgeDisplay(id: int, name: string, criteriaType: string, config: Option<Json>)
    ensures RarityColor(NewBadge(id, name, criteriaType, config).rarity) == "#9ca3af"
    ensures RarityLabel(NewBadge(id, name, criteriaType, config).rarity) == "Common"
  {
  }

  /** The pieces put back together with a dot between each two: PHP's `implode('.', parts)`. */
  function Join(parts: seq<string>): string
    requires |parts| >= 1
  {
    if |parts| == 1 then parts[0] else parts[0] + "." + Join(parts[1..])
  }

  /** Prefixing a character to the first piece prefixes it to the joined string. */
  lemma {:induction false} JoinConsHead(c: char, parts: seq<string>)
    requires |parts| >= 1
    ensures Join([[c] + parts[0]] + parts[1..]) == [c] + Join(parts)
  {
    var head := [c] + parts[0];
    var q := [head] + parts[1..];
    assert |q| == |parts| && q[0] == head;
    if |parts| == 1 {
      assert Join(q) == head;
    } else {
      assert q[1..] == parts[1..];
    }
  }

  /** An empty first piece puts a dot in front of the rest. */
  lemma {:induction false} JoinEmptyHead(parts: seq<string>)
    requires |parts| >= 1
    ensures Join([""] + parts) == "." + Join(parts)
  {
    var q := [""] + parts;
    assert q[0] == "" && q[1..] == parts;
    assert "" + "." + Join(parts) == "." + Join(parts);
  }

  /** PHP's `explode('.', key)`: the pieces between dots, empty pieces kept. */
  function Split(key: string): (parts: seq<string>)
    ensures |parts| >= 1
    ensures '.' !in key ==> parts == [key]
    ensures forall i :: 0 <= i < |parts| ==> '.' !in parts[i]
  {
    if key == [] then [""]
    else
      var rest := Split(key[1..]);
      assert key == [key[0]] + key[1..];
      if key[0] == '.' then [""] + rest
      else [[key[0]] + rest[0]] + rest[1..]
  }

  /** Joining the pieces with dots gives the key back: `implode('.', explode('.', key)) == key`. */
  lemma {:induction false} SplitJoin(key: string)
    ensures Join(Split(key)) == key
  {
    if key != [] {
      var rest := Split(key[1..]);
      SplitJoin(key[1..]);
      assert key == [key[0]] + key[1..];
      if key[0] == '.' {
        JoinEmptyHead(rest);
      } else {
        JoinConsHead(key[0], rest);
      }
    }
  }

  /** A dot splits a key into the piece before it and the pieces of what follows. */
  lemma {:induction false} SplitAtDot(a: string, b: string)
    requires '.' !in a
    ensures Split(a + "." + b) == [a] + Split(b)
  {
    if a == [] {
      assert a + "." + b == "." + b;
      assert ("." + b)[1..] == b;
    } else {
      var k := a + "." + b;
      assert k[0] == a[0] && k[1..] == a[1..] + "." + b;
      SplitAtDot(a[1..], b);
      assert [a[0]] + a[1..] == a;
    }
  }

  /** Laravel's `data_get` along a path of segments: descends into arrays while the
      segment is a key and falls back to the default as soon as it is not. */
  function DataGet(target: Json, path: seq<string>, default: Json): (r: Json)
    ensures path == [] ==> r == target
    ensures path != [] && (!target.JArray? || path[0] !in target.entries) ==> r == default
  {
    if path == [] then target
    else if target.JArray? && path[0] in target.entries then DataGet(target.entries[path[0]], path[1..], default)
    else default
  }

  /** `getCriteriaValue(key, default)`: the dotted path `key` looked up in `criteria_config`. */
  function GetCriteriaValue(b: Badge, key: string, default: Json): (r: Json)
    ensures b.criteriaConfig.None? ==> r == default
    ensures key == "" && b.criteriaConfig.Some? ==> r == DataGet(b.criteriaConfig.value, [""], default)
  {
    if b.criteriaConfig.None? then default else DataGet(b.criteriaConfig.value, Split(key), default)
  }

  /** A missing configuration, or a first path segment that is not a key of it, yields the default. */
  lemma CriteriaValueAbsent(b: Badge, key: string, default: Json)
    requires b.criteriaConfig.None? || !b.criteriaConfig.value.JArray?
          || Split(key)[0] !in b.criteriaConfig.value.entries
    ensures GetCriteriaValue(b, key, default) == default
  {
  }

  /** A plain key (no dot) present in the configuration yields its stored value, even JSON null. */
  lemma CriteriaValuePresent(b: Badge, key: string, default: Json)
    requires '.' !in key
    requires b.criteriaConfig.Some? && b.criteriaConfig.value.JArray? && key in b.criteriaConfig.value.entries
    ensures GetCriteriaValue(b, key, default) == b.criteriaConfig.value.entries[key]
  {
  }

  /** A key with one dot descends two levels: `"a.b"` looks up `b` inside the value stored
      under `a`, falling back to the default when either is missing. */
  lemma CriteriaValueDotted(b: Badge, k1: string, k2: string, default: Json)
    requires '.' !in k1 && '.' !in k2 && b.criteriaConfig.Some?
    ensures GetCriteriaValue(b, k1 + "." + k2, default) == DataGet(b.criteriaConfig.value, [k1, k2], default)
    ensures var c := b.criteriaConfig.value;
      c.JArray? && k1 in c.entries && c.entries[k1].JArray? && k2 in c.entries[k1].entries
      ==> GetCriteriaValue(b, k1 + "." + k2, default) == c.entries[k1].entries[k2]
  {
    SplitAtDot(k1, k2);
    assert [k1] + [k2] == [k1, k2];
    var c := b.criteriaConfig.value;
    if c.JArray? && k1 in c.entries {
      assert [k1, k2][1..] == [k2];
      assert [k2][1..] == [];
    }
  }

  /** `isEarnedBy(user)`: some user-badge row of this badge belongs to the user. */
  predicate IsEarnedBy(b: Badge, rows: seq<UserBadgeRow>, rewardUserId: int) {
    exists i :: 0 <= i < |rows| && rows[i].rewardBadgeId == b.id && rows[i].rewardUserId == rewardUserId
  }
}
