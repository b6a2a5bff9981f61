/**
 Removal of sensitive values from event data before it is stored (`scrub_sensitive_with` and its
 use in `persist_event`, src/api.rs).
 */
module Scrubbing {
  import opened Wrappers
  import opened Json

  const FILTERED: Json := Str("[Filtered]")

  /** A key is listed when its ASCII lower-case form is one of the fields. */
  predicate Listed(key: string, fields: set<string>)
  {
    AsciiLower(key) in fields
  }

  /** The fields of a project, lower-cased as `persist_event` does before it scrubs. */
  function Fields(configured: seq<string>): set<string>
  {
    set f <- configured :: AsciiLower(f)
  }

  function Scrub(j: Json, fields: set<string>): Json
  {
    match j
    case Obj(members) =>
      Obj(map k <- members :: if Listed(k, fields) then FILTERED else Scrub(members[k], fields))
    case Arr(items) => Arr(seq(|items|, i requires 0 <= i < |items| => Scrub(items[i], fields)))
    case _ => j
  }

  /** The scrubber as the loops it is: one member or one element of the value at a time. */
  method ScrubInPlace(value: Json, fields: set<string>) returns (r: Json)
    ensures r == Scrub(value, fields)
    decreases value, 1
  {
    match value
    case Obj(_) =>
      var members := ScrubMembers(value, fields);
      return Obj(members);
    case Arr(_) =>
      var items := ScrubItems(value, fields);
      return Arr(items);
    case _ => return value;
  }

  method ScrubMembers(value: Json, fields: set<string>) returns (scrubbed: map<string, Json>)
    requires value.Obj?
    ensures Obj(scrubbed) == Scrub(value, fields)
    decreases value, 0
  {
    hide Scrub;
    var members := value.fields;
    scrubbed := members;
    var left := members.Keys;
    while left != {}
      invariant left <= members.Keys && scrubbed.Keys == members.Keys
      invariant forall k :: k in left ==> scrubbed[k] == members[k]
      invariant forall k :: k in members && k !in left ==>
                  scrubbed[k] == if Listed(k, fields) then FILTERED else Scrub(members[k], fields)
      decreases |left|
    {
      var key :| key in left;
      if AsciiLower(key) in fields {
        scrubbed := scrubbed[key := FILTERED];
      } else {
        var inner := ScrubInPlace(members[key], fields);
        scrubbed := scrubbed[key := inner];
      }
      left := left - {key};
    }
    MembersScrubbed(value, fields, scrubbed);
  }

  lemma MembersScrubbed(value: Json, fields: set<string>, scrubbed: map<string, Json>)
    requires value.Obj? && scrubbed.Keys == value.fields.Keys
    requires forall k :: k in value.fields ==>
               scrubbed[k] == if Listed(k, fields) then FILTERED else Scrub(value.fields[k], fields)
    ensures Obj(scrubbed) == Scrub(value, fields)
  {
    assert scrubbed == Scrub(value, fields).fields;
  }

  method ScrubItems(value: Json, fields: set<string>) returns (scrubbed: seq<Json>)
    requires value.Arr?
    ensures Arr(scrubbed) == Scrub(value, fields)
    decreases value, 0
  {
    var items := value.items;
    scrubbed := items;
    for i := 0 to |items|
      invariant |scrubbed| == |items|
      invariant forall j :: 0 <= j < i ==> scrubbed[j] == Scrub(items[j], fields)
      invariant forall j :: i <= j < |items| ==> scrubbed[j] == items[j]
    {
      var inner := ScrubInPlace(items[i], fields);
      scrubbed := scrubbed[i := inner];
    }
  }

  // ----- positions in a value -----

  datatype Step = Key(key: string) | Index(i: nat)

  type Path = seq<Step>

  /** What a value holds at a path, if anything. */
  function At(j: Json, path: Path): Option<Json>
    decreases |path|
  {
    if path == [] then Some(j)
    else
      match path[0]
      case Key(k) => if j.Obj? && k in j.fields then At(j.fields[k], path[1..]) else None
      case Index(i) => if j.Arr? && i < |j.items| then At(j.items[i], path[1..]) else None
  }

  predicate ListedStep(s: Step, fields: set<string>)
  {
    s.Key? && Listed(s.key, fields)
  }

  /** No key on the path is listed. */
  predicate Plain(path: Path, fields: set<string>)
  {
    forall i :: 0 <= i < |path| ==> !ListedStep(path[i], fields)
  }

  /** Away from listed keys, scrubbing changes nothing but what lies below. */
  lemma {:induction false} PlainPathsCommute(j: Json, fields: set<string>, path: Path)
    requires Plain(path, fields)
    ensures At(Scrub(j, fields), path)
         == if At(j, path).Some? then Some(Scrub(At(j, path).value, fields)) else None
    decreases |path|
  {
    if path != [] {
      assert !ListedStep(path[0], fields);
      match path[0]
      case Key(k) =>
        if j.Obj? && k in j.fields {
          PlainPathsCommute(j.fields[k], fields, path[1..]);
        }
      case Index(i) =>
        if j.Arr? && i < |j.items| {
          PlainPathsCommute(j.items[i], fields, path[1..]);
        }
    }
  }

  /** Everything outside the listed keys survives, in place: members, elements and scalars alike. */
  lemma ScrubKeepsTheRest(j: Json, fields: set<string>, path: Path)
    requires Plain(path, fields)
    ensures At(j, path).None? <==> At(Scrub(j, fields), path).None?
    ensures At(j, path).Some? && !At(j, path).value.Obj? && !At(j, path).value.Arr? ==>
              At(Scrub(j, fields), path) == At(j, path)
    ensures At(j, path).Some? && At(j, path).value.Obj? ==>
              At(Scrub(j, fields), path).value.Obj?
              && At(Scrub(j, fields), path).value.fields.Keys == At(j, path).value.fields.Keys
    ensures At(j, path).Some? && At(j, path).value.Arr? ==>
              At(Scrub(j, fields), path).value.Arr?
              && |At(Scrub(j, fields), path).value.items| == |At(j, path).value.items|
  {
    PlainPathsCommute(j, fields, path);
  }

  /** Wherever a listed key is found after scrubbing, at any depth, it holds the placeholder. */
  lemma {:induction false} ScrubLeavesNoSecret(j: Json, fields: set<string>, path: Path, key: string)
    requires Listed(key, fields)
    requires At(Scrub(j, fields), path + [Key(key)]).Some?
    ensures At(Scrub(j, fields), path + [Key(key)]) == Some(FILTERED)
    decreases |path|
  {
    var clean := Scrub(j, fields);
    if path == [] {
      assert (path + [Key(key)])[1..] == [];
    } else {
      assert (path + [Key(key)])[1..] == path[1..] + [Key(key)];
      match path[0]
      case Key(k) =>
        if Listed(k, fields) {
          assert clean.fields[k] == FILTERED;
          NothingBelowScalar(FILTERED, path[1..] + [Key(key)]);
        } else {
          ScrubLeavesNoSecret(j.fields[k], fields, path[1..], key);
        }
      case Index(i) =>
        ScrubLeavesNoSecret(j.items[i], fields, path[1..], key);
    }
  }

  lemma NothingBelowScalar(j: Json, path: Path)
    requires !j.Obj? && !j.Arr? && path != []
    ensures At(j, path).None?
  {
  }

  /** Scrubbing twice is scrubbing once with both lists. */
  lemma {:induction false} ScrubsCompose(j: Json, first: set<string>, second: set<string>)
    ensures Scrub(Scrub(j, first), second) == Scrub(j, first + second)
    decreases j
  {
    hide Scrub;
    match j
    case Obj(members) =>
      forall k | k in members
        ensures Scrub(Scrub(members[k], first), second) == Scrub(members[k], first + second)
      {
        ScrubsCompose(members[k], first, second);
      }
      MembersCompose(members, first, second);
    case Arr(items) =>
      forall i | 0 <= i < |items|
        ensures Scrub(Scrub(items[i], first), second) == Scrub(items[i], first + second)
      {
        ScrubsCompose(items[i], first, second);
      }
      ItemsCompose(items, first, second);
    case _ => ScalarsStay(j, first, second);
  }

  lemma MembersCompose(members: map<string, Json>, first: set<string>, second: set<string>)
    requires forall k :: k in members ==> Scrub(Scrub(members[k], first), second) == Scrub(members[k], first + second)
    ensures Scrub(Scrub(Obj(members), first), second) == Scrub(Obj(members), first + second)
  {
    var once, both := Scrub(Obj(members), first).fields, Scrub(Obj(members), first + second).fields;
    var twice := Scrub(Obj(once), second).fields;
    forall k | k in members ensures twice[k] == both[k] { MemberComposes(k, members[k], first, second); }
    assert twice == both;
  }

  lemma MemberComposes(k: string, member: Json, first: set<string>, second: set<string>)
    requires Scrub(Scrub(member, first), second) == Scrub(member, first + second)
    ensures var once := if Listed(k, first) then FILTERED else Scrub(member, first);
            (if Listed(k, second) then FILTERED else Scrub(once, second)) ==
            (if Listed(k, first + second) then FILTERED else Scrub(member, first + second))
  {
    assert Scrub(FILTERED, second) == FILTERED;
  }

  lemma ItemsCompose(items: seq<Json>, first: set<string>, second: set<string>)
    requires forall i :: 0 <= i < |items| ==> Scrub(Scrub(items[i], first), second) == Scrub(items[i], first + second)
    ensures Scrub(Scrub(Arr(items), first), second) == Scrub(Arr(items), first + second)
  {
    var once, both := Scrub(Arr(items), first).items, Scrub(Arr(items), first + second).items;
    var twice := Scrub(Arr(once), second).items;
    assert twice == both;
  }

  lemma ScalarsStay(j: Json, first: set<string>, second: set<string>)
    requires !j.Obj? && !j.Arr?
    ensures Scrub(Scrub(j, first), second) == Scrub(j, first + second)
  {
  }

  /** Scrubbing again with the same list changes nothing, and the order of two lists does not matter. */
  lemma ScrubIsIdempotentAndOrderFree(j: Json, first: set<string>, second: set<string>)
    ensures Scrub(Scrub(j, first), first) == Scrub(j, first)
    ensures Scrub(Scrub(j, first), second) == Scrub(Scrub(j, second), first)
  {
    ScrubsCompose(j, first, first);
    assert first + first == first;
    ScrubsCompose(j, first, second);
    ScrubsCompose(j, second, first);
    assert first + second == second + first;
  }

  lemma LowerTwice(s: string)
    ensures AsciiLower(AsciiLower(s)) == AsciiLower(s)
  {
  }

  /** Because the configured list is lower-cased, its own case never matters, nor that of the key. */
  lemma ListingIgnoresCase(configured: seq<string>, field: string, key: string)
    requires field in configured && AsciiLower(field) == AsciiLower(key)
    ensures Listed(key, Fields(configured))
    ensures Listed(AsciiLower(key), Fields(configured))
  {
    LowerTwice(key);
  }
}
