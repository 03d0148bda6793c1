/**
 The tag algebra of pkg/resource/certificate/tags.go and its users in manager.go.

 An `acktags.Tags` value is a Go map, so a reference: the class `TagMap`. The order in which Go
 visits a map is any order, here an arbitrary choice in each loop round.
 */
module Tags {
  import opened Types

  class TagMap {
    var entries: map<string, string>

    constructor (entries: map<string, string>)
      ensures this.entries == entries
    {
      this.entries := entries;
    }
  }

  const AWS_PREFIX := "aws:"

  predicate IsAWS(key: string) {
    AWS_PREFIX <= key
  }

  predicate IsSystem(key: string, systemTags: seq<string>) {
    IsAWS(key) || key in systemTags
  }

  // ---------- What a tag list means ----------

  function ValueOf(t: Tag): string {
    if t.value.Some? then t.value.value else ""
  }

  /** The map a tag list stands for: the last of several equal keys wins, a missing value is "". */
  function Denote(tags: seq<Tag>): map<string, string> {
    if tags == [] then map[] else
      var before, last := Denote(tags[..|tags| - 1]), tags[|tags| - 1];
      if last.key.None? then before else before[last.key.value := ValueOf(last)]
  }

  /** The keys of a tag list in order, duplicates included. */
  function KeyOrder(tags: seq<Tag>): seq<string> {
    if tags == [] then [] else
      var before, last := KeyOrder(tags[..|tags| - 1]), tags[|tags| - 1];
      if last.key.None? then before else before + [last.key.value]
  }

  /** The wanted keys in the order in which they first occur. */
  function Firsts(order: seq<string>, wanted: set<string>): seq<string> {
    if order == [] then []
    else if order[0] in wanted then [order[0]] + Firsts(order[1..], wanted - {order[0]})
    else Firsts(order[1..], wanted)
  }

  function Render(keys: seq<string>, m: map<string, string>): (tags: seq<Tag>)
    requires forall k <- keys :: k in m
  {
    seq(|keys|, i requires 0 <= i < |keys| => Tag(Some(keys[i]), Some(m[keys[i]])))
  }

  function Keys(order: seq<string>): (keys: set<string>)
    ensures forall k :: k in keys <==> k in order
  {
    set k <- order
  }

  /** `tags` lists `m`: first the keys named by `order`, then `extras`, the other keys in any order. */
  ghost predicate ListsWith(tags: seq<Tag>, m: map<string, string>, order: seq<string>, extras: seq<string>) {
    && Distinct(extras)
    && Keys(extras) == m.Keys - Keys(order)
    && (forall k <- Firsts(order, m.Keys) + extras :: k in m)
    && tags == Render(Firsts(order, m.Keys) + extras, m)
  }

  ghost predicate Lists(tags: seq<Tag>, m: map<string, string>, order: seq<string>) {
    exists extras :: ListsWith(tags, m, order, extras)
  }

  /** A tag list with its keys distinct and its keys and values present. */
  ghost predicate WellFormed(tags: seq<Tag>) {
    && (forall t <- tags :: t.key.Some? && t.value.Some?)
    && (forall i, j :: 0 <= i < j < |tags| ==> tags[i].key != tags[j].key)
  }

  /** The normal form of a tag list. */
  function Normal(tags: seq<Tag>): seq<Tag> {
    KeysOfDenote(tags);
    FirstsAreTheWanted(KeyOrder(tags), Denote(tags).Keys);
    Render(Firsts(KeyOrder(tags), Denote(tags).Keys), Denote(tags))
  }

  function WithoutSystem(m: map<string, string>, systemTags: seq<string>): map<string, string> {
    map k <- m | !IsSystem(k, systemTags) :: m[k]
  }

  /** The tags of a list whose keys are not system keys, in the list's order. */
  function DropSystem(tags: seq<Tag>, systemTags: seq<string>): seq<Tag> {
    if tags == [] then []
    else if tags[0].key.Some? && IsSystem(tags[0].key.value, systemTags) then DropSystem(tags[1..], systemTags)
    else [tags[0]] + DropSystem(tags[1..], systemTags)
  }

  function WithAWSOf(desired: map<string, string>, latest: map<string, string>): map<string, string> {
    desired + map k <- latest | IsAWS(k) :: latest[k]
  }

  // ---------- The operations ----------

  method ConvertToOrderedACKTags(tags: seq<Tag>) returns (result: TagMap, keyOrder: seq<string>)
    ensures fresh(result)
    ensures result.entries == Denote(tags)
    ensures keyOrder == KeyOrder(tags)
  {
    result := new TagMap(map[]);
    keyOrder := [];
    if |tags| == 0 {
      return;
    }
    for i := 0 to |tags|
      invariant fresh(result)
      invariant result.entries == Denote(tags[..i])
      invariant keyOrder == KeyOrder(tags[..i])
    {
      assert tags[..i + 1][..i] == tags[..i];
      var t := tags[i];
      if t.key.Some? {
        keyOrder := keyOrder + [t.key.value];
        if t.value.Some? {
          result.entries := result.entries[t.key.value := t.value.value];
        } else {
          result.entries := result.entries[t.key.value := ""];
        }
      }
    }
    assert tags[..|tags|] == tags;
  }

  /** Consumes the named keys of its argument: what is left in `tags` are the keys not in `keyOrder`. */
  method FromACKTags(tags: TagMap, keyOrder: seq<string>) returns (result: seq<Tag>)
    modifies tags
    ensures tags.entries == old(tags.entries) - Keys(keyOrder)
    ensures Lists(result, old(tags.entries), keyOrder)
  {
    ghost var m := tags.entries;
    ghost var listed: seq<string> := [];
    result := [];
    for i := 0 to |keyOrder|
      invariant tags.entries == m - Keys(keyOrder[..i])
      invariant Firsts(keyOrder, m.Keys) == listed + Firsts(keyOrder[i..], tags.entries.Keys)
      invariant (forall k <- listed :: k in m) && result == Render(listed, m)
    {
      var k := keyOrder[i];
      assert keyOrder[i..][1..] == keyOrder[i + 1..];
      assert Keys(keyOrder[..i + 1]) == Keys(keyOrder[..i]) + {k};
      if k in tags.entries {
        result := result + [Tag(Some(k), Some(tags.entries[k]))];
        listed := listed + [k];
        tags.entries := tags.entries - {k};
      }
    }
    assert keyOrder[..|keyOrder|] == keyOrder;
    assert listed == Firsts(keyOrder, m.Keys);
    var pending := tags.entries.Keys;
    ghost var extras: seq<string> := [];
    while pending != {}
      invariant pending <= tags.entries.Keys
      invariant Distinct(extras) && Keys(extras) == tags.entries.Keys - pending
      invariant (forall k <- listed + extras :: k in m) && result == Render(listed + extras, m)
    {
      var k :| k in pending;
      result := result + [Tag(Some(k), Some(tags.entries[k]))];
      assert listed + (extras + [k]) == (listed + extras) + [k];
      extras := extras + [k];
      pending := pending - {k};
    }
    assert ListsWith(result, m, keyOrder, extras);
  }

  method IgnoreSystemTags(tags: TagMap, systemTags: seq<string>)
    modifies tags
    ensures tags.entries == WithoutSystem(old(tags.entries), systemTags)
  {
    ghost var m := tags.entries;
    var pending := tags.entries.Keys;
    while pending != {}
      invariant pending <= tags.entries.Keys
      invariant tags.entries == map k <- m | k in pending || !IsSystem(k, systemTags) :: m[k]
    {
      var k :| k in pending;
      if AWS_PREFIX <= k || k in systemTags {
        tags.entries := tags.entries - {k};
      }
      pending := pending - {k};
    }
  }

  /** AWS tags mirrored except those still to be visited. */
  function Mirroring(m: map<string, string>, latest: map<string, string>, pending: set<string>): map<string, string> {
    m + map k <- latest | k !in pending && IsAWS(k) :: latest[k]
  }

  lemma MirroringOne(m: map<string, string>, latest: map<string, string>, pending: set<string>, k: string)
    requires k in pending && pending <= latest.Keys
    ensures var before := Mirroring(m, latest, pending);
      Mirroring(m, latest, pending - {k}) == if IsAWS(k) then before[k := latest[k]] else before
  {
  }

  method SyncAWSTags(a: TagMap, b: TagMap)
    requires a != b
    modifies a
    ensures a.entries == WithAWSOf(old(a.entries), b.entries)
  {
    ghost var m := a.entries;
    var pending := b.entries.Keys;
    while pending != {}
      invariant pending <= b.entries.Keys
      invariant a.entries == Mirroring(m, b.entries, pending)
    {
      var k :| k in pending;
      MirroringOne(m, b.entries, pending, k);
      if AWS_PREFIX <= k {
        a.entries := a.entries[k := b.entries[k]];
      }
      pending := pending - {k};
    }
  }

  /** `acktags.Merge`: on a key of both maps the first argument wins. */
  method Merge(a: TagMap, b: TagMap) returns (result: TagMap)
    ensures fresh(result) && result.entries == b.entries + a.entries
  {
    result := new TagMap(b.entries + a.entries);
  }

  /** `defaultTags` are the controller's tags for this resource, computed by the runtime. */
  method EnsureTags(r: Certificate, defaultTags: TagMap)
    modifies r`spec
    ensures r.spec == old(r.spec).(tags := r.spec.tags)
    ensures Lists(r.spec.tags, defaultTags.entries + Denote(old(r.spec.tags)), KeyOrder(old(r.spec.tags)))
  {
    var resourceTags, keyOrder := ConvertToOrderedACKTags(r.spec.tags);
    var tags := Merge(resourceTags, defaultTags);
    var listed := FromACKTags(tags, keyOrder);
    r.spec := r.spec.(tags := listed);
  }

  method FilterSystemTags(r: Certificate?, systemTags: seq<string>)
    modifies if r == null then {} else {r}
    ensures r != null ==> r.status == old(r.status) && r.conditions == old(r.conditions)
    ensures r != null ==> r.spec == old(r.spec).(tags := r.spec.tags)
    ensures r != null ==>
      Lists(r.spec.tags, WithoutSystem(Denote(old(r.spec.tags)), systemTags), KeyOrder(old(r.spec.tags)))
  {
    if r == null {
      return;
    }
    var resourceTags, tagKeyOrder := ConvertToOrderedACKTags(r.spec.tags);
    IgnoreSystemTags(resourceTags, systemTags);
    var listed := FromACKTags(resourceTags, tagKeyOrder);
    r.spec := r.spec.(tags := listed);
  }

  method MirrorAWSTags(a: Certificate?, b: Certificate?)
    modifies if a == null then {} else {a}
    ensures a != null ==> a.status == old(a.status) && a.conditions == old(a.conditions)
    ensures a != null && b == null ==> a.spec == old(a.spec)
    ensures a != null ==> a.spec == old(a.spec).(tags := a.spec.tags)
    ensures a != null && b != null ==>
      Lists(a.spec.tags, WithAWSOf(Denote(old(a.spec.tags)), Denote(old(b.spec.tags))), KeyOrder(old(a.spec.tags)))
  {
    if a == null || b == null {
      return;
    }
    var desiredTags, desiredTagKeyOrder := ConvertToOrderedACKTags(a.spec.tags);
    var latestTags, _ := ConvertToOrderedACKTags(b.spec.tags);
    SyncAWSTags(desiredTags, latestTags);
    var listed := FromACKTags(desiredTags, desiredTagKeyOrder);
    a.spec := a.spec.(tags := listed);
  }

  // ---------- Facts about lists of keys ----------

  lemma {:induction false} KeysOfDenote(tags: seq<Tag>)
    ensures Denote(tags).Keys == Keys(KeyOrder(tags))
  {
    if tags != [] {
      KeysOfDenote(tags[..|tags| - 1]);
    }
  }

  lemma {:induction false} FirstsAreTheWanted(order: seq<string>, wanted: set<string>)
    ensures Distinct(Firsts(order, wanted))
    ensures Keys(Firsts(order, wanted)) == wanted * Keys(order)
  {
    if order != [] {
      assert Keys(order) == {order[0]} + Keys(order[1..]);
      if order[0] in wanted {
        FirstsAreTheWanted(order[1..], wanted - {order[0]});
        assert order[0] !in Keys(Firsts(order[1..], wanted - {order[0]}));
      } else {
        FirstsAreTheWanted(order[1..], wanted);
      }
    }
  }

  /** The position of the first occurrence of a key. */
  function IndexOf(order: seq<string>, k: string): (i: nat)
    requires k in order
    ensures i < |order| && order[i] == k && k !in order[..i]
  {
    if order[0] == k then 0 else 1 + IndexOf(order[1..], k)
  }

  lemma IndexBehindTheFirst(order: seq<string>, k: string)
    requires order != [] && k in order[1..] && k != order[0]
    ensures k in order && IndexOf(order, k) == 1 + IndexOf(order[1..], k)
  {
  }

  /** A key listed after the first key of the order is found one place further on. */
  lemma ListedBehindTheFirst(order: seq<string>, rest: set<string>, k: string)
    requires order != [] && order[0] !in rest && k in Firsts(order[1..], rest)
    ensures k in order[1..] && k in order && IndexOf(order, k) == 1 + IndexOf(order[1..], k)
  {
    FirstsAreTheWanted(order[1..], rest);
    assert k in Keys(Firsts(order[1..], rest));
    IndexBehindTheFirst(order, k);
  }

  /** First-occurrence order: the listed keys appear by increasing first position. */
  lemma {:induction false} FirstsKeepTheOrder(order: seq<string>, wanted: set<string>, i: nat, j: nat)
    requires i < j < |Firsts(order, wanted)|
    ensures Firsts(order, wanted)[i] in order && Firsts(order, wanted)[j] in order
    ensures IndexOf(order, Firsts(order, wanted)[i]) < IndexOf(order, Firsts(order, wanted)[j])
  {
    if order[0] in wanted {
      var rest := wanted - {order[0]};
      var tail := Firsts(order[1..], rest);
      assert Firsts(order, wanted) == [order[0]] + tail;
      ListedBehindTheFirst(order, rest, tail[j - 1]);
      if i > 0 {
        ListedBehindTheFirst(order, rest, tail[i - 1]);
        FirstsKeepTheOrder(order[1..], rest, i - 1, j - 1);
      }
    } else {
      var tail := Firsts(order[1..], wanted);
      ListedBehindTheFirst(order, wanted, tail[i]);
      ListedBehindTheFirst(order, wanted, tail[j]);
      FirstsKeepTheOrder(order[1..], wanted, i, j);
    }
  }

  lemma {:induction false} RenderDenotes(keys: seq<string>, m: map<string, string>)
    requires forall k <- keys :: k in m
    ensures Denote(Render(keys, m)) == map k <- keys :: m[k]
    ensures KeyOrder(Render(keys, m)) == keys
  {
    if keys != [] {
      var before := keys[..|keys| - 1];
      assert Render(keys, m)[..|keys| - 1] == Render(before, m);
      RenderDenotes(before, m);
      assert keys == before + [keys[|keys| - 1]];
    }
  }

  // ---------- Main results ----------

  lemma ListedKeys(m: map<string, string>, order: seq<string>, extras: seq<string>)
    requires Distinct(extras) && Keys(extras) == m.Keys - Keys(order)
    ensures Distinct(Firsts(order, m.Keys) + extras)
    ensures Keys(Firsts(order, m.Keys) + extras) == m.Keys
  {
    FirstsAreTheWanted(order, m.Keys);
    DistinctAppend(Firsts(order, m.Keys), extras);
  }

  /** Listing a map keeps it: every order of visiting the map denotes that map, well-formed. */
  lemma ListingKeepsTheMap(tags: seq<Tag>, m: map<string, string>, order: seq<string>)
    requires Lists(tags, m, order)
    ensures Denote(tags) == m
    ensures WellFormed(tags)
    ensures Firsts(order, m.Keys) <= KeyOrder(tags)
  {
    var extras :| ListsWith(tags, m, order, extras);
    var keys := Firsts(order, m.Keys) + extras;
    ListedKeys(m, order, extras);
    assert forall k <- m :: k in Keys(keys);
    RenderDenotes(keys, m);
  }

  /** A round trip through the map has one possible outcome, whatever order the map is visited in. */
  lemma RoundTripIsNormal(tags: seq<Tag>, result: seq<Tag>)
    ensures Lists(result, Denote(tags), KeyOrder(tags)) <==> result == Normal(tags)
  {
    var m, order := Denote(tags), KeyOrder(tags);
    KeysOfDenote(tags);
    FirstsAreTheWanted(order, m.Keys);
    assert Firsts(order, m.Keys) + [] == Firsts(order, m.Keys);
    if result == Normal(tags) {
      assert ListsWith(result, m, order, []);
    }
    if Lists(result, m, order) {
      var extras :| ListsWith(result, m, order, extras);
      NoKeysNoList(extras);
    }
  }

  lemma NoKeysNoList(order: seq<string>)
    ensures Keys(order) == {} <==> order == []
  {
    if order != [] {
      assert order[0] in Keys(order);
    }
  }

  lemma {:induction false} DistinctAreTheirFirsts(order: seq<string>)
    requires Distinct(order)
    ensures Firsts(order, Keys(order)) == order
  {
    if order != [] {
      assert Keys(order) - {order[0]} == Keys(order[1..]) by {
        assert order == [order[0]] + order[1..];
        assert forall i :: 0 <= i < |order[1..]| ==> order[1..][i] == order[i + 1] != order[0];
      }
      DistinctAreTheirFirsts(order[1..]);
    }
  }

  /** A listing is in normal form. */
  lemma ListingIsNormal(tags: seq<Tag>, m: map<string, string>, order: seq<string>)
    requires Lists(tags, m, order)
    ensures Normal(tags) == tags
  {
    var extras :| ListsWith(tags, m, order, extras);
    var keys := Firsts(order, m.Keys) + extras;
    ListedKeys(m, order, extras);
    RenderDenotes(keys, m);
    assert forall k <- m :: k in Keys(keys);
    DistinctAreTheirFirsts(keys);
  }

  /** The normal form means the same, is well-formed, and is its own normal form. */
  lemma NormalIsNormal(tags: seq<Tag>)
    ensures Denote(Normal(tags)) == Denote(tags)
    ensures WellFormed(Normal(tags))
    ensures Normal(Normal(tags)) == Normal(tags)
  {
    RoundTripIsNormal(tags, Normal(tags));
    ListingKeepsTheMap(Normal(tags), Denote(tags), KeyOrder(tags));
    KeysOfDenote(tags);
    var keys := Firsts(KeyOrder(tags), Denote(tags).Keys);
    FirstsAreTheWanted(KeyOrder(tags), Denote(tags).Keys);
    RenderDenotes(keys, Denote(tags));
    assert Keys(keys) == Denote(tags).Keys;
    DistinctAreTheirFirsts(keys);
  }

  ghost predicate LastAt(tags: seq<Tag>, k: string, i: int) {
    && 0 <= i < |tags|
    && tags[i].key == Some(k)
    && forall j :: i < j < |tags| ==> tags[j].key != Some(k)
  }

  /** The last tag that carries a key decides its value. */
  lemma {:induction false} LastTagWins(tags: seq<Tag>, k: string, i: int)
    requires LastAt(tags, k, i)
    ensures k in Denote(tags)
    ensures Denote(tags)[k] == if tags[i].value.Some? then tags[i].value.value else ""
  {
    var n := |tags| - 1;
    if i < n {
      assert LastAt(tags[..n], k, i);
      LastTagWins(tags[..n], k, i);
      assert tags[n].key != Some(k);
    }
  }

  /** Only carried keys are denoted. */
  lemma {:induction false} DenotedIsCarried(tags: seq<Tag>, k: string) returns (i: int)
    requires k in Denote(tags)
    ensures LastAt(tags, k, i)
  {
    var n := |tags| - 1;
    if tags[n].key == Some(k) {
      i := n;
    } else {
      i := DenotedIsCarried(tags[..n], k);
      assert tags[..n][i] == tags[i];
      assert forall j :: i < j < n ==> tags[..n][j] == tags[j];
    }
  }

  // ---------- What the operations on tags mean for each key ----------

  /** `EnsureTags`, key by key: the user's value, otherwise the default one. */
  lemma EnsuredExactly(user: seq<Tag>, defaults: map<string, string>, ensured: seq<Tag>)
    requires Lists(ensured, defaults + Denote(user), KeyOrder(user))
    ensures forall k :: k in Denote(ensured) <==> k in Denote(user) || k in defaults
    ensures forall k <- Denote(ensured) ::
      Denote(ensured)[k] == if k in Denote(user) then Denote(user)[k] else defaults[k]
  {
    ListingKeepsTheMap(ensured, defaults + Denote(user), KeyOrder(user));
  }

  /** `FilterSystemTags`, key by key: no AWS-managed or system tag is left and every other tag is kept. */
  lemma FilteredExactly(own: seq<Tag>, systemTags: seq<string>, filtered: seq<Tag>)
    requires Lists(filtered, WithoutSystem(Denote(own), systemTags), KeyOrder(own))
    ensures forall k :: k in Denote(filtered) <==> k in Denote(own) && !("aws:" <= k) && k !in systemTags
    ensures forall k <- Denote(filtered) :: Denote(filtered)[k] == Denote(own)[k]
  {
    ListingKeepsTheMap(filtered, WithoutSystem(Denote(own), systemTags), KeyOrder(own));
  }

  /** Mirroring, key by key: the observed value of an AWS-managed tag that is observed, otherwise the own value. */
  lemma MirroredExactly(own: seq<Tag>, observed: seq<Tag>, mirrored: seq<Tag>)
    requires Lists(mirrored, WithAWSOf(Denote(own), Denote(observed)), KeyOrder(own))
    ensures forall k :: k in Denote(mirrored) <==> k in Denote(own) || (k in Denote(observed) && "aws:" <= k)
    ensures forall k <- Denote(mirrored) ::
      Denote(mirrored)[k] == if k in Denote(observed) && "aws:" <= k then Denote(observed)[k] else Denote(own)[k]
  {
    ListingKeepsTheMap(mirrored, WithAWSOf(Denote(own), Denote(observed)), KeyOrder(own));
  }

  /** The place in a list at which a key first occurs. */
  ghost predicate FirstAt(tags: seq<Tag>, k: string, i: nat) {
    && i < |tags|
    && tags[i].key == Some(k)
    && forall j :: 0 <= j < i ==> tags[j].key != Some(k)
  }

  lemma {:induction false} CarriedIsOrdered(tags: seq<Tag>, k: string)
    ensures k in KeyOrder(tags) <==> exists i :: 0 <= i < |tags| && tags[i].key == Some(k)
  {
    if tags != [] {
      var n := |tags| - 1;
      CarriedIsOrdered(tags[..n], k);
      assert forall i :: 0 <= i < n ==> tags[..n][i] == tags[i];
    }
  }

  lemma {:induction false} IndexInPrefix(order: seq<string>, x: string, k: string)
    requires k in order
    ensures IndexOf(order + [x], k) == IndexOf(order, k)
  {
    if order[0] != k {
      assert (order + [x])[1..] == order[1..] + [x];
      IndexInPrefix(order[1..], x, k);
    }
  }

  lemma {:induction false} IndexOfNew(order: seq<string>, x: string)
    requires x !in order
    ensures IndexOf(order + [x], x) == |order|
  {
    if order != [] {
      assert (order + [x])[1..] == order[1..] + [x];
      IndexOfNew(order[1..], x);
    }
  }

  lemma FirstAtPrefix(tags: seq<Tag>, k: string, p: nat)
    requires tags != [] && FirstAt(tags, k, p)
    ensures p < |tags| - 1 ==> FirstAt(tags[..|tags| - 1], k, p)
    ensures k in KeyOrder(tags)
    ensures k in KeyOrder(tags[..|tags| - 1]) <==> p < |tags| - 1
  {
    var before := tags[..|tags| - 1];
    assert forall i :: 0 <= i < |before| ==> before[i] == tags[i];
    CarriedIsOrdered(before, k);
    CarriedIsOrdered(tags, k);
  }

  /** The place of a first occurrence among the keys is that among the keys before, or behind all of them. */
  lemma IndexOfFirst(tags: seq<Tag>, k: string, p: nat)
    requires tags != [] && FirstAt(tags, k, p) && k in KeyOrder(tags)
    ensures k in KeyOrder(tags[..|tags| - 1]) <==> p < |tags| - 1
    ensures IndexOf(KeyOrder(tags), k) ==
      if p < |tags| - 1 then IndexOf(KeyOrder(tags[..|tags| - 1]), k) else |KeyOrder(tags[..|tags| - 1])|
  {
    FirstAtPrefix(tags, k, p);
    var before, last := KeyOrder(tags[..|tags| - 1]), tags[|tags| - 1];
    if p == |tags| - 1 {
      IndexOfNew(before, k);
    } else if last.key.Some? {
      IndexInPrefix(before, last.key.value, k);
    }
  }

  /** First occurrences come in the same order in the list of tags as in the list of their keys. */
  lemma {:induction false} KeysKeepTheOrder(tags: seq<Tag>, k: string, p: nat, l: string, q: nat)
    requires FirstAt(tags, k, p) && FirstAt(tags, l, q)
    requires k in KeyOrder(tags) && l in KeyOrder(tags)
    ensures IndexOf(KeyOrder(tags), k) < IndexOf(KeyOrder(tags), l) <==> p < q
    decreases |tags|
  {
    IndexOfFirst(tags, k, p);
    IndexOfFirst(tags, l, q);
    if p < |tags| - 1 && q < |tags| - 1 {
      FirstAtPrefix(tags, k, p);
      FirstAtPrefix(tags, l, q);
      KeysKeepTheOrder(tags[..|tags| - 1], k, p, l, q);
    }
  }

  /**
   Every operation that lists a map again keeps the user's order: a tag whose key the user had comes
   after exactly such tags, and those have their first occurrence before it in the user's list.
   */
  lemma ListingKeepsTheOrder(user: seq<Tag>, m: map<string, string>, tags: seq<Tag>, i: nat, j: nat, q: nat)
    requires Lists(tags, m, KeyOrder(user))
    requires i < j < |tags| && tags[j].key.Some? && FirstAt(user, tags[j].key.value, q)
    ensures tags[i].key.Some? && exists p: nat :: p < q && FirstAt(user, tags[i].key.value, p)
  {
    var order := KeyOrder(user);
    var extras :| ListsWith(tags, m, order, extras);
    var firsts := Firsts(order, m.Keys);
    var k, l := (firsts + extras)[i], (firsts + extras)[j];
    CarriedIsOrdered(user, l);
    assert j < |firsts| by {
      assert l in Keys(order);
      assert forall x <- extras :: x in Keys(extras);
    }
    FirstsKeepTheOrder(order, m.Keys, i, j);
    CarriedIsOrdered(user, k);
    var p := FirstOccurrence(user, k);
    KeysKeepTheOrder(user, k, p, l, q);
  }

  lemma FirstOccurrence(tags: seq<Tag>, k: string) returns (p: nat)
    requires exists i :: 0 <= i < |tags| && tags[i].key == Some(k)
    ensures FirstAt(tags, k, p)
  {
    p := 0;
    while tags[p].key != Some(k)
      invariant p < |tags|
      invariant forall j :: 0 <= j < p ==> tags[j].key != Some(k)
      decreases |tags| - p
    {
      p := p + 1;
    }
  }

  lemma {:induction false} FirstsOfDistinct(order: seq<string>, wanted: set<string>, m: map<string, string>,
                                            systemTags: seq<string>)
    requires Distinct(order)
    requires forall k <- order :: k in m && (k in wanted <==> !IsSystem(k, systemTags))
    ensures forall k <- Firsts(order, wanted) :: k in m
    ensures Render(Firsts(order, wanted), m) == DropSystem(Render(order, m), systemTags)
  {
    if order != [] {
      var rest := if order[0] in wanted then wanted - {order[0]} else wanted;
      assert forall i :: 0 <= i < |order[1..]| ==> order[1..][i] == order[i + 1] != order[0];
      FirstsOfDistinct(order[1..], rest, m, systemTags);
      FirstsAreTheWanted(order[1..], rest);
      assert Render(order, m)[1..] == Render(order[1..], m);
      if order[0] in wanted {
        assert Render(Firsts(order, wanted), m)
            == [Render(order, m)[0]] + Render(Firsts(order[1..], rest), m);
      }
    }
  }

  lemma {:induction false} DropSystemAppends(a: seq<Tag>, b: seq<Tag>, systemTags: seq<string>)
    ensures DropSystem(a + b, systemTags) == DropSystem(a, systemTags) + DropSystem(b, systemTags)
  {
    if a == [] {
      assert a + b == b;
    } else {
      assert (a + b)[1..] == a[1..] + b;
      DropSystemAppends(a[1..], b, systemTags);
    }
  }

  lemma {:induction false} DropSystemDropsAll(tags: seq<Tag>, systemTags: seq<string>)
    requires forall t <- tags :: t.key.Some?
    ensures DropSystem(tags, systemTags) == [] <==> forall t <- tags :: IsSystem(t.key.value, systemTags)
  {
    if tags != [] {
      DropSystemDropsAll(tags[1..], systemTags);
      assert tags == [tags[0]] + tags[1..];
    }
  }

  lemma DistinctAppend(a: seq<string>, b: seq<string>)
    requires Distinct(a) && Distinct(b) && Keys(a) !! Keys(b)
    ensures Distinct(a + b) && Keys(a + b) == Keys(a) + Keys(b)
  {
    forall i, j | 0 <= i < j < |a + b|
      ensures (a + b)[i] != (a + b)[j]
    {
      if i < |a| <= j {
        assert a[i] in Keys(a) && b[j - |a|] in Keys(b);
      }
    }
  }

  /** The keys of the list `EnsureTags` makes: the user's, in order, then the added default ones. */
  lemma EnsuredKeys(order: seq<string>, own: map<string, string>, defaults: map<string, string>,
                    ensured: seq<Tag>, extras: seq<string>)
    requires own.Keys == Keys(order)
    requires ListsWith(ensured, defaults + own, order, extras)
    ensures Firsts(order, (defaults + own).Keys) == Firsts(order, own.Keys)
    ensures KeyOrder(ensured) == Firsts(order, own.Keys) + extras
    ensures Distinct(KeyOrder(ensured))
    ensures Keys(KeyOrder(ensured)) == (defaults + own).Keys
    ensures Keys(extras) == defaults.Keys - own.Keys
  {
    var m := defaults + own;
    assert m.Keys * Keys(order) == own.Keys * Keys(order);
    FirstsSame(order, m.Keys, own.Keys);
    ListedKeys(m, order, extras);
    RenderDenotes(Firsts(order, m.Keys) + extras, m);
  }

  /** Filtering a well-formed list keeps the order and drops exactly the system tags. */
  lemma FilteredIsDropped(tags: seq<Tag>, systemTags: seq<string>, filtered: seq<Tag>)
    requires Distinct(KeyOrder(tags)) && Keys(KeyOrder(tags)) == Denote(tags).Keys
    requires tags == Render(KeyOrder(tags), Denote(tags))
    requires Lists(filtered, WithoutSystem(Denote(tags), systemTags), KeyOrder(tags))
    ensures filtered == DropSystem(tags, systemTags)
  {
    var keys, m := KeyOrder(tags), Denote(tags);
    var kept := WithoutSystem(m, systemTags);
    assert forall k <- keys :: k in Keys(keys);
    FirstsOfDistinct(keys, kept.Keys, m, systemTags);
    FirstsAreTheWanted(keys, kept.Keys);
    var left :| ListsWith(filtered, kept, keys, left);
    NoKeysNoList(left);
    assert Firsts(keys, kept.Keys) + left == Firsts(keys, kept.Keys);
    assert forall k <- Firsts(keys, kept.Keys) :: kept[k] == m[k];
  }

  /** What adding the default tags and then filtering the system tags leaves, for every visiting order. */
  lemma FilteredAfterEnsured(user: seq<Tag>, defaults: map<string, string>, systemTags: seq<string>,
                             ensured: seq<Tag>, extras: seq<string>, filtered: seq<Tag>)
    requires ListsWith(ensured, defaults + Denote(user), KeyOrder(user), extras)
    requires Lists(filtered, WithoutSystem(Denote(ensured), systemTags), KeyOrder(ensured))
    ensures forall k <- extras :: k in defaults
    ensures Keys(extras) == defaults.Keys - Denote(user).Keys
    ensures filtered == DropSystem(Normal(user), systemTags) + DropSystem(Render(extras, defaults), systemTags)
  {
    var order, own := KeyOrder(user), Denote(user);
    KeysOfDenote(user);
    EnsuredKeys(order, own, defaults, ensured, extras);
    ListingKeepsTheMap(ensured, defaults + own, order);
    FilteredIsDropped(ensured, systemTags, filtered);
    FirstsAreTheWanted(order, own.Keys);
    RenderSplits(Firsts(order, own.Keys), extras, own, defaults);
    DropSystemAppends(Normal(user), Render(extras, defaults), systemTags);
  }

  lemma RenderSplits(a: seq<string>, b: seq<string>, m: map<string, string>, n: map<string, string>)
    requires Keys(a) <= m.Keys && Keys(b) <= n.Keys - m.Keys
    ensures forall k <- a + b :: k in n + m
    ensures forall k <- b :: k in n
    ensures Render(a + b, n + m) == Render(a, m) + Render(b, n)
  {
  }

  lemma {:induction false} FirstsSame(order: seq<string>, a: set<string>, b: set<string>)
    requires a * Keys(order) == b * Keys(order)
    ensures Firsts(order, a) == Firsts(order, b)
  {
    if order != [] {
      assert Keys(order) == {order[0]} + Keys(order[1..]);
      assert order[0] in a <==> order[0] in a * Keys(order);
      assert order[0] in b <==> order[0] in b * Keys(order);
      if order[0] in a {
        assert forall k :: k in (a - {order[0]}) * Keys(order[1..]) ==> k in a * Keys(order);
        assert forall k :: k in (b - {order[0]}) * Keys(order[1..]) ==> k in b * Keys(order);
        FirstsSame(order[1..], a - {order[0]}, b - {order[0]});
      } else {
        assert forall k :: k in a * Keys(order[1..]) ==> k in a * Keys(order);
        assert forall k :: k in b * Keys(order[1..]) ==> k in b * Keys(order);
        FirstsSame(order[1..], a, b);
      }
    }
  }

  /**
   `EnsureTags` then `FilterSystemTags` gives back the user's normalised tags without the system
   ones, in the user's order, exactly when each default tag is a system tag or one the user set.
   */
  lemma EnsureThenFilter(user: seq<Tag>, defaults: map<string, string>, systemTags: seq<string>,
                         ensured: seq<Tag>, filtered: seq<Tag>)
    requires Lists(ensured, defaults + Denote(user), KeyOrder(user))
    requires Lists(filtered, WithoutSystem(Denote(ensured), systemTags), KeyOrder(ensured))
    ensures filtered == DropSystem(Normal(user), systemTags)
      <==> forall k <- defaults :: k in Denote(user) || IsSystem(k, systemTags)
  {
    var extras :| ListsWith(ensured, defaults + Denote(user), KeyOrder(user), extras);
    FilteredAfterEnsured(user, defaults, systemTags, ensured, extras, filtered);
    var own, more := DropSystem(Normal(user), systemTags), DropSystem(Render(extras, defaults), systemTags);
    assert |own + more| == |own| + |more|;
    assert filtered == own <==> more == [];
    AllSystem(extras, defaults, systemTags);
    assert forall k <- defaults :: k !in Denote(user) <==> k in Keys(extras);
  }

  lemma AllSystem(keys: seq<string>, m: map<string, string>, systemTags: seq<string>)
    requires forall k <- keys :: k in m
    ensures DropSystem(Render(keys, m), systemTags) == [] <==> forall k <- Keys(keys) :: IsSystem(k, systemTags)
  {
    var tags := Render(keys, m);
    DropSystemDropsAll(tags, systemTags);
    if forall t <- tags :: IsSystem(t.key.value, systemTags) {
      forall k <- Keys(keys)
        ensures IsSystem(k, systemTags)
      {
        var i :| 0 <= i < |keys| && keys[i] == k;
        assert tags[i] in tags;
      }
    }
  }
}
