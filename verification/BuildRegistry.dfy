/**
 * Registering game builds and resolving a channel to one of them (register_game_build and
 * resolve_game_build in asset_service.rs).
 */
module BuildRegistry {
  import opened Wrappers
  import opened VersionOrder

  type BuildId = string

  datatype BuildStatus = Discovered | Resolving | Available | Deprecated | Failed

  /** The schema sent with a build: unusable, or valid and naming its adapter. */
  datatype Schema = BadSchema | GoodSchema(adapterId: string)

  /** The fields a new version takes over from its base when they are not set. */
  datatype Details = Details(adapterId: string, adapterVersion: (nat, nat, nat), upstream: Option<string>,
                             uri: Option<string>, image: Option<string>, metadata: Option<string>, schema: Option<Schema>)

  datatype Build = Build(id: BuildId, game: string, channel: Option<string>, tag: Option<string>,
                         status: BuildStatus, pinned: bool, details: Details)

  /** The repository. */
  type Builds = map<BuildId, Build>

  ghost predicate KeyedById(m: Builds) {
    forall id :: id in m ==> m[id].id == id
  }

  /** One answer of list_by_game: every build of the game once, in whatever order. */
  ghost predicate Lists(m: Builds, game: string, list: seq<Build>) {
    && (forall b :: b in list <==> b.id in m && m[b.id] == b && b.game == game)
    && (forall i, j :: 0 <= i < j < |list| ==> list[i].id != list[j].id)
  }

  // -------------------------------------------------------------------- resolving

  predicate Serves(b: Build, channel: string) {
    b.channel == Some(channel) && (b.status == Available || b.status == Deprecated)
  }

  function Rank(b: Build): nat {
    if b.status == Available then 1 else 0
  }

  /** Available before Deprecated, then by tag. */
  function CompareBuilds(a: Build, b: Build): Ordering {
    if Rank(a) < Rank(b) then Lower
    else if Rank(a) > Rank(b) then Higher
    else CompareTags(a.tag, b.tag)
  }

  /** Filter and maximum; of several maxima the last listed wins. */
  function ResolveChannel(list: seq<Build>, channel: string): Option<Build> {
    if list == [] then None
    else
      var before, last := ResolveChannel(list[..|list| - 1], channel), list[|list| - 1];
      if !Serves(last, channel) then before
      else if before.None? || CompareBuilds(before.value, last) != Higher then Some(last)
      else before
  }

  lemma BuildOrder(a: Build, b: Build, c: Build)
    ensures CompareBuilds(a, a) == Same
    ensures CompareBuilds(b, a) == CompareBuilds(a, b).Flip()
    ensures CompareBuilds(a, b) != Higher && CompareBuilds(b, c) != Higher ==> CompareBuilds(a, c) != Higher
    ensures CompareBuilds(a, b) == Lower && CompareBuilds(b, c) != Higher ==> CompareBuilds(a, c) == Lower
    ensures CompareBuilds(a, b) != Higher && CompareBuilds(b, c) == Lower ==> CompareBuilds(a, c) == Lower
  {
    TotalPreorder(a.tag, b.tag, c.tag);
  }

  /** Position k holds the last of the best builds that serve the channel. */
  ghost predicate LastBest(list: seq<Build>, channel: string, k: int) {
    && 0 <= k < |list| && Serves(list[k], channel)
    && (forall j :: 0 <= j < |list| && Serves(list[j], channel) ==> CompareBuilds(list[j], list[k]) != Higher)
    && (forall j :: k < j < |list| && Serves(list[j], channel) ==> CompareBuilds(list[j], list[k]) == Lower)
  }

  /** What resolving means, without its loop. */
  lemma {:induction false} ResolvesToLastBest(list: seq<Build>, channel: string)
    ensures ResolveChannel(list, channel).None? <==> forall j :: 0 <= j < |list| ==> !Serves(list[j], channel)
    ensures ResolveChannel(list, channel).Some? ==>
              exists k :: LastBest(list, channel, k) && ResolveChannel(list, channel) == Some(list[k])
  {
    if list != [] {
      var n := |list| - 1;
      var init, last := list[..n], list[n];
      ResolvesToLastBest(init, channel);
      var before := ResolveChannel(init, channel);
      if before.Some? {
        var k :| LastBest(init, channel, k) && before == Some(init[k]);
        if Serves(last, channel) && CompareBuilds(before.value, last) != Higher {
          LastTakesOver(list, channel, k);
        } else {
          BestStays(list, channel, k);
        }
      } else if Serves(last, channel) {
        BuildOrder(last, last, last);
        assert forall j :: 0 <= j < n ==> !Serves(init[j], channel);
        assert LastBest(list, channel, n);
      }
    }
  }

  /** The builds a channel offers: its own, available ones and those that are only deprecated. */
  predicate Offered(b: Build, channel: string) {
    b.channel == Some(channel) && b.status in {Available, Deprecated}
  }

  /** The build b at k gives way to c at j: to an available one if it is deprecated, to a higher tag of its status, or to an equal one listed later. */
  predicate GivesWay(b: Build, k: int, c: Build, j: int) {
    || (b.status == Deprecated && c.status == Available)
    || (b.status == c.status && CompareTags(c.tag, b.tag) == Higher)
    || (b.status == c.status && CompareTags(c.tag, b.tag) == Same && j > k)
  }

  /** A channel resolves to what it offers and what gives way to nothing else it offers. */
  lemma ResolvesToOffered(list: seq<Build>, channel: string)
    ensures ResolveChannel(list, channel).None? <==> forall b :: b in list ==> !Offered(b, channel)
    ensures ResolveChannel(list, channel).Some? ==>
              exists k :: 0 <= k < |list| && list[k] == ResolveChannel(list, channel).value && Offered(list[k], channel)
                          && forall j :: 0 <= j < |list| && Offered(list[j], channel) ==> !GivesWay(list[k], k, list[j], j)
  {
    ResolvesToLastBest(list, channel);
    assert forall b :: Serves(b, channel) <==> Offered(b, channel);
    if ResolveChannel(list, channel).Some? {
      var k :| LastBest(list, channel, k) && ResolveChannel(list, channel) == Some(list[k]);
      forall j | 0 <= j < |list| && Offered(list[j], channel)
        ensures !GivesWay(list[k], k, list[j], j)
      {
        assert CompareBuilds(list[j], list[k]) != Higher;
      }
    }
  }

  lemma LastTakesOver(list: seq<Build>, channel: string, k: int)
    requires list != [] && Serves(list[|list| - 1], channel)
    requires LastBest(list[..|list| - 1], channel, k) && CompareBuilds(list[k], list[|list| - 1]) != Higher
    ensures LastBest(list, channel, |list| - 1)
  {
    var init, last := list[..|list| - 1], list[|list| - 1];
    forall j | 0 <= j < |list| && Serves(list[j], channel)
      ensures CompareBuilds(list[j], last) != Higher
    {
      BuildOrder(list[j], init[k], last);
      BuildOrder(last, last, last);
      assert j < |init| ==> list[j] == init[j];
    }
  }

  lemma BestStays(list: seq<Build>, channel: string, k: int)
    requires list != [] && LastBest(list[..|list| - 1], channel, k)
    requires Serves(list[|list| - 1], channel) ==> CompareBuilds(list[k], list[|list| - 1]) == Higher
    ensures LastBest(list, channel, k)
  {
    var init, last := list[..|list| - 1], list[|list| - 1];
    BuildOrder(init[k], last, last);
    forall j | 0 <= j < |list| && Serves(list[j], channel)
      ensures CompareBuilds(list[j], list[k]) != Higher && (j > k ==> CompareBuilds(list[j], list[k]) == Lower)
    {
      assert j < |init| ==> list[j] == init[j];
    }
  }

  // ------------------------------------------------------------------ build ids

  function GenerateId(game: string, channel: string, tag: string): BuildId {
    if channel == "" then game + "-" + tag else game + "-" + channel + "-" + tag
  }

  predicate DashFree(s: string) {
    '-' !in s
  }

  function FirstDash(s: string): (n: nat)
    ensures n <= |s|
  {
    if s == "" || s[0] == '-' then 0 else FirstDash(s[1..]) + 1
  }

  lemma {:induction false} FirstDashAt(a: string, x: string)
    requires DashFree(a)
    ensures FirstDash(a + "-" + x) == |a|
  {
    if a != "" {
      assert (a + "-" + x)[1..] == a[1..] + "-" + x;
      FirstDashAt(a[1..], x);
    }
  }

  lemma SplitAtFirstDash(a: string, x: string, b: string, y: string)
    requires DashFree(a) && DashFree(b) && a + "-" + x == b + "-" + y
    ensures a == b && x == y
  {
    var s := a + "-" + x;
    FirstDashAt(a, x);
    FirstDashAt(b, y);
    assert s[..|a|] == a && s[..|b|] == b && s[|a| + 1..] == x && s[|b| + 1..] == y;
  }

  /** Ids tell builds apart as long as games and channels are named without dashes. */
  lemma IdsAreInjective(g1: string, c1: string, t1: string, g2: string, c2: string, t2: string)
    requires DashFree(g1) && DashFree(c1) && DashFree(g2) && DashFree(c2) && (c1 == "" <==> c2 == "")
    requires GenerateId(g1, c1, t1) == GenerateId(g2, c2, t2)
    ensures g1 == g2 && c1 == c2 && t1 == t2
  {
    if c1 == "" {
      SplitAtFirstDash(g1, t1, g2, t2);
    } else {
      assert g1 + "-" + (c1 + "-" + t1) == GenerateId(g1, c1, t1) == g2 + "-" + (c2 + "-" + t2);
      SplitAtFirstDash(g1, c1 + "-" + t1, g2, c2 + "-" + t2);
      SplitAtFirstDash(c1, t1, c2, t2);
    }
  }

  /** What an id consists of before the tag. */
  function IdPrefix(game: string, channel: string): string {
    if channel == "" then game + "-" else game + "-" + channel + "-"
  }

  lemma IdIsPrefixAndTag(game: string, channel: string, tag: string)
    ensures GenerateId(game, channel, tag) == IdPrefix(game, channel) + tag
  {
  }

  /** Some tags give two channels a common id if and only if what comes before the tag in one is a prefix of the other's. */
  lemma IdsCollideIff(g1: string, c1: string, g2: string, c2: string)
    ensures (exists t1, t2 :: !Blank(t1) && !Blank(t2) && GenerateId(g1, c1, t1) == GenerateId(g2, c2, t2))
            <==> IdPrefix(g1, c1) <= IdPrefix(g2, c2) || IdPrefix(g2, c2) <= IdPrefix(g1, c1)
  {
    var p, q := IdPrefix(g1, c1), IdPrefix(g2, c2);
    if t1, t2 :| !Blank(t1) && !Blank(t2) && GenerateId(g1, c1, t1) == GenerateId(g2, c2, t2) {
      IdIsPrefixAndTag(g1, c1, t1);
      IdIsPrefixAndTag(g2, c2, t2);
      OneIsPrefix(p, t1, q, t2);
    }
    if p <= q {
      SharedId(g1, c1, g2, c2);
    }
    if q <= p {
      SharedId(g2, c2, g1, c1);
    }
  }

  lemma OneIsPrefix(p: string, s: string, q: string, t: string)
    requires p + s == q + t
    ensures p <= q || q <= p
  {
    if |p| <= |q| {
      assert p == (p + s)[..|p|] == (q + t)[..|p|] == q[..|p|];
    } else {
      assert q == (q + t)[..|q|] == (p + s)[..|q|] == p[..|q|];
    }
  }

  lemma SharedId(g1: string, c1: string, g2: string, c2: string)
    requires IdPrefix(g1, c1) <= IdPrefix(g2, c2)
    ensures exists t1, t2 :: !Blank(t1) && !Blank(t2) && GenerateId(g1, c1, t1) == GenerateId(g2, c2, t2)
  {
    var p, q := IdPrefix(g1, c1), IdPrefix(g2, c2);
    var rest := q[|p|..];
    var t := rest + "1";
    assert !Blank("1") && !Blank(t) by {
      assert "1"[0] == '1' && t[|rest|] == '1';
    }
    IdIsPrefixAndTag(g1, c1, t);
    IdIsPrefixAndTag(g2, c2, "1");
    assert p + (rest + "1") == q + "1";
  }

  /** Otherwise different channels, or different games, share ids. */
  lemma DashedNamesCollide(game: string, c: string, d: string, t: string)
    requires c != ""
    ensures GenerateId(game, c, d + "-" + t) == GenerateId(game, c + "-" + d, t)
    ensures d != "" ==> GenerateId(game + "-" + c, d, t) == GenerateId(game, c + "-" + d, t)
    ensures GenerateId(game, "", c + "-" + t) == GenerateId(game, c, t)
  {
    assert game + "-" + c + "-" + (d + "-" + t) == game + "-" + (c + "-" + d) + "-" + t;
    assert game + "-" + c + "-" + d + "-" + t == game + "-" + (c + "-" + d) + "-" + t;
    assert game + "-" + (c + "-" + t) == game + "-" + c + "-" + t;
  }

  // ----------------------------------------------------------------- registering

  datatype RegisterError =
    | TagRequired | TagEmpty | GameRequired | BaseNotFound | BaseOfOtherGame | BaseOfOtherChannel
    | SchemaInvalid | AdapterConflict | CustomId

  datatype Result<T> = Ok(value: T) | Err(error: RegisterError)

  datatype Request = Request(build: Build, baseId: Option<BuildId>)

  /** Unicode White_Space. */
  predicate IsSpace(c: char) {
    var n := c as int;
    9 <= n <= 13 || n == 0x20 || n == 0x85 || n == 0xA0 || n == 0x1680 || 0x2000 <= n <= 0x200A
    || n == 0x2028 || n == 0x2029 || n == 0x202F || n == 0x205F || n == 0x3000
  }

  /** The 25 code points with that property. */
  lemma SpacesAre(c: char)
    ensures IsSpace(c) <==>
              c as int in {0x9, 0xA, 0xB, 0xC, 0xD, 0x20, 0x85, 0xA0, 0x1680, 0x2000, 0x2001, 0x2002, 0x2003, 0x2004, 0x2005,
                           0x2006, 0x2007, 0x2008, 0x2009, 0x200A, 0x2028, 0x2029, 0x202F, 0x205F, 0x3000}
  {
  }

  predicate Blank(s: string) {
    forall i :: 0 <= i < |s| ==> IsSpace(s[i])
  }

  function Else<T>(o: Option<T>, fallback: Option<T>): Option<T> {
    if o.Some? then o else fallback
  }

  /** Everything not set explicitly is taken over from the base, pinning included. */
  function Merge(b: Build, base: Build): Build {
    var d, e := b.details, base.details;
    b.(channel := Else(b.channel, base.channel),
       pinned := b.pinned || base.pinned,
       details := Details(if d.adapterId == "" then e.adapterId else d.adapterId,
                          if d.adapterVersion == (0, 0, 0) then e.adapterVersion else d.adapterVersion,
                          Else(d.upstream, e.upstream), Else(d.uri, e.uri), Else(d.image, e.image),
                          Else(d.metadata, e.metadata), Else(d.schema, e.schema)))
  }

  /** The first listed Available build of the requested channel. */
  function DefaultBase(list: seq<Build>, channel: Option<string>): Option<Build> {
    if list == [] then None
    else if list[0].channel == channel && list[0].status == Available then Some(list[0])
    else DefaultBase(list[1..], channel)
  }

  function FindBase(m: Builds, list: seq<Build>, req: Request): Result<Option<Build>> {
    if req.baseId.Some? && !Blank(req.baseId.value) then
      if req.baseId.value !in m then Err(BaseNotFound)
      else
        var base := m[req.baseId.value];
        if base.game != req.build.game then Err(BaseOfOtherGame)
        else if req.build.channel.Some? && base.channel != req.build.channel then Err(BaseOfOtherChannel)
        else Ok(Some(base))
    else Ok(DefaultBase(list, req.build.channel))
  }

  /** The schema is the authority on the adapter. */
  function SettleAdapter(b: Build): Result<Build> {
    match b.details.schema
    case None => Ok(b)
    case Some(BadSchema) => Err(SchemaInvalid)
    case Some(GoodSchema(adapter)) =>
      if b.details.adapterId == "" then Ok(b.(details := b.details.(adapterId := adapter)))
      else if adapter != b.details.adapterId then Err(AdapterConflict)
      else Ok(b)
  }

  function Identify(b: Build, tag: string): Result<Build> {
    var id := GenerateId(b.game, if b.channel.Some? then b.channel.value else "", tag);
    if b.id != "" && b.id != id then Err(CustomId) else Ok(b.(id := id, status := Available))
  }

  /** The build as it will be stored, or why the request is refused; nothing is stored yet. */
  function Prepare(m: Builds, list: seq<Build>, req: Request): Result<Build> {
    if req.build.tag.None? then Err(TagRequired)
    else if Blank(req.build.tag.value) then Err(TagEmpty)
    else if Blank(req.build.game) then Err(GameRequired)
    else
      match FindBase(m, list, req)
      case Err(e) => Err(e)
      case Ok(base) =>
        match SettleAdapter(if base.Some? then Merge(req.build, base.value) else req.build)
        case Err(e) => Err(e)
        case Ok(b) => Identify(b, req.build.tag.value)
  }

  // ------------------------------------------------ what registering looks at

  /** The request names a base: an id with anything but white space in it. */
  predicate NamesBase(req: Request) {
    req.baseId.Some? && !Blank(req.baseId.value)
  }

  /** A named base is the stored build of that id, of the same game, and of the same channel if one is asked for. */
  predicate UsableBase(m: Builds, req: Request) {
    && req.baseId.Some? && req.baseId.value in m && m[req.baseId.value].game == req.build.game
    && (req.build.channel.None? || m[req.baseId.value].channel == req.build.channel)
  }

  /** Without a named base it is the first listed Available build of the requested channel, if there is one. */
  ghost predicate IsDefaultBase(list: seq<Build>, channel: Option<string>, base: Option<Build>) {
    if base.None? then forall b :: b in list ==> b.channel != channel || b.status != Available
    else
      exists k :: 0 <= k < |list| && list[k] == base.value && base.value.channel == channel && base.value.status == Available
                  && forall i :: 0 <= i < k ==> list[i].channel != channel || list[i].status != Available
  }

  lemma {:induction false} DefaultBaseIsFirst(list: seq<Build>, channel: Option<string>)
    ensures IsDefaultBase(list, channel, DefaultBase(list, channel))
  {
    if list != [] && !(list[0].channel == channel && list[0].status == Available) {
      DefaultBaseIsFirst(list[1..], channel);
      var base := DefaultBase(list[1..], channel);
      if base.Some? {
        var k :| 0 <= k < |list[1..]| && list[1..][k] == base.value
                 && forall i :: 0 <= i < k ==> list[1..][i].channel != channel || list[1..][i].status != Available;
        assert list[k + 1] == base.value;
        assert forall i :: 0 < i < k + 1 ==> list[i] == list[1..][i - 1];
      }
    }
  }

  lemma BaseOf(m: Builds, list: seq<Build>, req: Request)
    ensures FindBase(m, list, req).Ok? <==> !NamesBase(req) || UsableBase(m, req)
    ensures NamesBase(req) && UsableBase(m, req) ==> FindBase(m, list, req) == Ok(Some(m[req.baseId.value]))
    ensures !NamesBase(req) ==> IsDefaultBase(list, req.build.channel, FindBase(m, list, req).value)
  {
    DefaultBaseIsFirst(list, req.build.channel);
  }

  /** An inherited value: the build's own if it has one, else its base's if there is a base. */
  predicate Inherited<T(==)>(r: Option<T>, own: Option<T>, base: Option<T>) {
    if own.Some? then r == own else r == base
  }

  /** Each field of an accepted build is its own, or taken over from its base; the adapter at last from the schema. */
  lemma PreparedFields(m: Builds, list: seq<Build>, req: Request)
    requires Prepare(m, list, req).Ok?
    ensures FindBase(m, list, req).Ok?
    ensures var b, r, base := req.build, Prepare(m, list, req).value, FindBase(m, list, req).value;
            var from := if base.Some? then base.value.details else Details("", (0, 0, 0), None, None, None, None, None);
            && r.game == b.game && r.tag == b.tag && r.status == Available
            && Inherited(r.channel, b.channel, if base.Some? then base.value.channel else None)
            && r.pinned == (b.pinned || (base.Some? && base.value.pinned))
            && Inherited(r.details.upstream, b.details.upstream, from.upstream)
            && Inherited(r.details.uri, b.details.uri, from.uri)
            && Inherited(r.details.image, b.details.image, from.image)
            && Inherited(r.details.metadata, b.details.metadata, from.metadata)
            && Inherited(r.details.schema, b.details.schema, from.schema)
            && r.details.adapterVersion == (if b.details.adapterVersion == (0, 0, 0) then from.adapterVersion else b.details.adapterVersion)
            && (r.details.schema.Some? ==> r.details.schema.value == GoodSchema(r.details.adapterId))
            && (b.details.adapterId != "" ==> r.details.adapterId == b.details.adapterId)
            && (b.details.adapterId == "" && from.adapterId != "" ==> r.details.adapterId == from.adapterId)
            && (b.details.adapterId == "" && from.adapterId == "" && r.details.schema.None? ==> r.details.adapterId == "")
            && (b.id == "" || b.id == r.id)
  {
  }

  /** Which refusal a request meets first. */
  lemma RefusedIff(m: Builds, list: seq<Build>, req: Request)
    ensures var r, b := Prepare(m, list, req), req.build;
            var tagged := b.tag.Some? && !Blank(b.tag.value);
            var named := tagged && !Blank(b.game);
            && (r == Err(TagRequired) <==> b.tag.None?)
            && (r == Err(TagEmpty) <==> b.tag.Some? && Blank(b.tag.value))
            && (r == Err(GameRequired) <==> tagged && Blank(b.game))
            && (r == Err(BaseNotFound) <==> named && NamesBase(req) && req.baseId.value !in m)
            && (r == Err(BaseOfOtherGame) <==>
                  named && NamesBase(req) && req.baseId.value in m && m[req.baseId.value].game != b.game)
            && (r == Err(BaseOfOtherChannel) <==>
                  named && NamesBase(req) && req.baseId.value in m && m[req.baseId.value].game == b.game
                  && b.channel.Some? && m[req.baseId.value].channel != b.channel)
            && (r.Ok? ==> named && (!NamesBase(req) || UsableBase(m, req)))
  {
  }

  /** And past those: a schema that is no good, an adapter it does not name, an id that is not the generated one. */
  lemma RefusedLaterIff(m: Builds, list: seq<Build>, req: Request)
    requires req.build.tag.Some? && !Blank(req.build.tag.value) && !Blank(req.build.game) && (NamesBase(req) ==> UsableBase(m, req))
    ensures FindBase(m, list, req).Ok?
    ensures var r, b, base := Prepare(m, list, req), req.build, FindBase(m, list, req).value;
            var schema := if b.details.schema.Some? || base.None? then b.details.schema else base.value.details.schema;
            var adapter := if b.details.adapterId != "" || base.None? then b.details.adapterId else base.value.details.adapterId;
            var channel := if b.channel.Some? || base.None? then b.channel else base.value.channel;
            var conflict := schema.Some? && schema.value.GoodSchema? && adapter != "" && schema.value.adapterId != adapter;
            var custom := b.id != "" && b.id != GenerateId(b.game, if channel.Some? then channel.value else "", b.tag.value);
            && (r == Err(SchemaInvalid) <==> schema == Some(BadSchema))
            && (r == Err(AdapterConflict) <==> conflict)
            && (r == Err(CustomId) <==> schema != Some(BadSchema) && !conflict && custom)
            && (r.Ok? <==> schema != Some(BadSchema) && !conflict && !custom)
  {
  }

  /** Replaced by b: the other unpinned Available builds of its game and channel. */
  predicate Superseded(o: Build, b: Build) {
    o.id != b.id && o.game == b.game && o.channel == b.channel && o.status == Available && !o.pinned
  }

  function Retire(o: Build, b: Build): Build {
    if Superseded(o, b) then o.(status := Deprecated) else o
  }

  /** The repository after storing a prepared build. */
  function Registered(m: Builds, b: Build): Builds {
    if b.id in m then m[b.id := b]
    else (map id | id in m :: Retire(m[id], b))[b.id := b]
  }

  class AssetService {
    var builds: Builds

    constructor ()
      ensures builds == map[]
    {
      builds := map[];
    }

    method Save(b: Build)
      modifies this
      ensures builds == old(builds)[b.id := b]
    {
      builds := builds[b.id := b];
    }

    method FindDefaultBase(list: seq<Build>, channel: Option<string>) returns (r: Option<Build>)
      ensures r == DefaultBase(list, channel)
    {
      for k := 0 to |list|
        invariant DefaultBase(list, channel) == DefaultBase(list[k..], channel)
      {
        assert list[k..][1..] == list[k + 1..];
        if list[k].channel == channel && list[k].status == Available {
          return Some(list[k]);
        }
      }
      return None;
    }

    /** list is what list_by_game answers. */
    method RegisterGameBuild(req: Request, list: seq<Build>) returns (r: Result<Build>)
      requires KeyedById(builds) && Lists(builds, req.build.game, list)
      modifies this
      ensures r == Prepare(old(builds), list, req)
      ensures builds == if r.Ok? then Registered(old(builds), r.value) else old(builds)
      ensures KeyedById(builds)
    {
      var build := req.build;
      if build.tag.None? {
        return Err(TagRequired);
      }
      var tag := build.tag.value;
      if Blank(tag) {
        return Err(TagEmpty);
      }
      if Blank(build.game) {
        return Err(GameRequired);
      }
      var base: Option<Build>;
      if req.baseId.Some? && !Blank(req.baseId.value) {
        if req.baseId.value !in builds {
          return Err(BaseNotFound);
        }
        base := Some(builds[req.baseId.value]);
        if base.value.game != build.game {
          return Err(BaseOfOtherGame);
        }
        if build.channel.Some? && base.value.channel != build.channel {
          return Err(BaseOfOtherChannel);
        }
      } else {
        base := FindDefaultBase(list, build.channel);
      }
      if base.Some? {
        build := Merge(build, base.value);
      }
      if build.details.schema.Some? {
        match build.details.schema.value {
          case BadSchema =>
            return Err(SchemaInvalid);
          case GoodSchema(adapter) =>
            if build.details.adapterId == "" {
              build := build.(details := build.details.(adapterId := adapter));
            } else if adapter != build.details.adapterId {
              return Err(AdapterConflict);
            }
        }
      }
      var channel := if build.channel.Some? then build.channel.value else "";
      var generated := GenerateId(build.game, channel, tag);
      if build.id != "" && build.id != generated {
        return Err(CustomId);
      }
      build := build.(id := generated, status := Available);
      Store(build, list);
      return Ok(build);
    }

    /** Overwrite a known id; otherwise retire what the new version replaces, then add it. */
    method Store(build: Build, list: seq<Build>)
      requires KeyedById(builds) && Lists(builds, build.game, list)
      modifies this
      ensures builds == Registered(old(builds), build) && KeyedById(builds)
    {
      if build.id in builds {
        Save(build);
        return;
      }
      for k := 0 to |list|
        invariant builds.Keys == old(builds).Keys
        invariant forall i :: 0 <= i < k ==> builds[list[i].id] == Retire(list[i], build)
        invariant forall i :: k <= i < |list| ==> builds[list[i].id] == list[i]
        invariant forall id :: id in old(builds) && old(builds)[id].game != build.game ==> builds[id] == old(builds)[id]
      {
        var o := list[k];
        assert o in list;
        if o.id != build.id && o.channel == build.channel && o.status == Available && !o.pinned {
          Save(o.(status := Deprecated));
        }
      }
      forall id | id in old(builds)
        ensures builds[id] == Retire(old(builds)[id], build)
      {
        var o := old(builds)[id];
        if o.game == build.game {
          assert o in list;
          var i :| 0 <= i < |list| && list[i] == o;
        }
      }
      assert builds == map id | id in old(builds) :: Retire(old(builds)[id], build);
      Save(build);
    }
  }

  // ---------------------------------------------------------------- consequences

  /**
   * A prepared build of the request's game carries the requested tag, an id made from game, channel
   * and tag, and the requested channel, or its base's if none was requested.
   */
  lemma PreparedBuild(m: Builds, list: seq<Build>, req: Request)
    ensures var r := Prepare(m, list, req);
            r.Ok? ==>
              && r.value.status == Available && r.value.game == req.build.game && r.value.tag == req.build.tag && r.value.tag.Some?
              && r.value.id == GenerateId(r.value.game, if r.value.channel.Some? then r.value.channel.value else "", r.value.tag.value)
              && (req.build.channel.Some? ==> r.value.channel == req.build.channel)
              && (req.build.pinned ==> r.value.pinned)
  {
  }

  /** Registering a tag not stored yet adds one record and deprecates exactly the builds it replaces. */
  lemma RegisteringRetires(m: Builds, b: Build, id: BuildId)
    requires KeyedById(m) && b.id !in m && b.status == Available && id in m
    ensures Registered(m, b).Keys == m.Keys + {b.id} && Registered(m, b)[b.id] == b
    ensures var o, n := m[id], Registered(m, b)[id];
            && n == o.(status := n.status)
            && (n.status != o.status ==> o.status == Available && n.status == Deprecated)
            && (o.game == b.game && o.channel == b.channel && !o.pinned ==> n.status != Available)
            && (o.game != b.game || o.channel != b.channel || o.pinned ==> n == o)
  {
  }

  /** Uploading a stored tag again changes that record and nothing else. */
  lemma ReuploadTouchesOneRecord(m: Builds, b: Build, id: BuildId)
    requires b.id in m && id in m && id != b.id
    ensures Registered(m, b).Keys == m.Keys && Registered(m, b)[id] == m[id]
  {
  }

  /** An Available build at position j keeps the build at position k from being the channel's answer. */
  ghost predicate Outranks(list: seq<Build>, channel: string, j: int, k: int) {
    && 0 <= j < |list| && 0 <= k < |list| && j != k
    && list[j].channel == Some(channel) && list[j].status == Available && list[j].pinned
    && (CompareTags(list[j].tag, list[k].tag) == Higher || (CompareTags(list[j].tag, list[k].tag) == Same && j > k))
  }

  /**
   * Right after a new tag is registered its channel resolves to it, whatever order the builds are
   * listed in, exactly when no pinned Available build has a higher tag, or an equal one listed later.
   */
  lemma NewVersionResolvesIff(m: Builds, b: Build, channel: string, list: seq<Build>, k: int)
    requires KeyedById(m) && b.id !in m && b.status == Available && b.channel == Some(channel)
    requires Lists(Registered(m, b), b.game, list) && 0 <= k < |list| && list[k] == b
    ensures ResolveChannel(list, channel) == Some(b) <==> !exists j :: Outranks(list, channel, j, k)
  {
    ResolvesToLastBest(list, channel);
    assert Serves(list[k], channel);
    var i :| LastBest(list, channel, i) && ResolveChannel(list, channel) == Some(list[i]);
    forall j | 0 <= j < |list| && j != k && list[j].channel == Some(channel) && list[j].status == Available
      ensures list[j].pinned
    {
      assert list[j] in list && list[j].id != b.id;
    }
    if list[i] == b {
      assert i == k;
      forall j | Outranks(list, channel, j, k)
        ensures false
      {
        assert Serves(list[j], channel);
      }
    } else {
      assert i != k;
      assert CompareBuilds(list[k], list[i]) != Higher;
      BuildOrder(list[k], list[i], list[i]);
      assert Outranks(list, channel, i, k);
    }
  }

  /** The current version of a channel: what instances are meant to get. */
  predicate Current(o: Build, game: string, channel: Option<string>) {
    o.game == game && o.channel == channel && o.status == Available && !o.pinned
  }

  /** Every channel of every game has at most one current version. */
  ghost predicate OneCurrent(m: Builds) {
    forall x, y :: x in m && y in m && x != y && Current(m[x], m[x].game, m[x].channel)
                   ==> !Current(m[y], m[x].game, m[x].channel)
  }

  /** Some other build than b is current in b's channel. */
  ghost predicate OtherCurrent(m: Builds, b: Build) {
    exists x :: x in m && x != b.id && Current(m[x], b.game, b.channel)
  }

  /**
   * Registering keeps at most one current version per channel exactly when it does not bring back
   * a stored, unpinned build beside another current one.
   */
  lemma OneCurrentKeptIff(m: Builds, b: Build)
    requires KeyedById(m) && OneCurrent(m) && b.status == Available
    ensures OneCurrent(Registered(m, b)) <==> b.id !in m || b.pinned || !OtherCurrent(m, b)
  {
    var r := Registered(m, b);
    if b.id in m {
      if !b.pinned {
        assert Current(r[b.id], b.game, b.channel);
        if x :| x in m && x != b.id && Current(m[x], b.game, b.channel) {
          assert r[x] == m[x];
          assert !OneCurrent(r);
        } else {
          StillOneCurrent(m, b);
        }
      } else {
        StillOneCurrent(m, b);
      }
    } else {
      StillOneCurrent(m, b);
    }
  }

  /** The failing sequence: a version, its successor, and the first version uploaded once more. */
  lemma ReuploadLeavesTwoCurrent(a: Build, b: Build)
    requires a.id != b.id && a.game == b.game && a.channel == b.channel
    requires a.status == Available && b.status == Available && !a.pinned && !b.pinned
    ensures var m := RegisteredAll(map[], [a] + ([b] + []));
            KeyedById(m) && OneCurrent(m) && !OneCurrent(Registered(m, a))
  {
    var m1 := Registered(map[], a);
    var m := Registered(m1, b);
    assert ([a] + ([b] + []))[1..] == [b] + [] && ([b] + [])[1..] == [];
    assert RegisteredAll(m, []) == m && RegisteredAll(m1, [b] + []) == m;
    assert m1 == map[a.id := a] && m == map[a.id := a.(status := Deprecated), b.id := b];
    assert OtherCurrent(m, a) by {
      assert Current(m[b.id], a.game, a.channel);
    }
    OneCurrentKeptIff(m, a);
  }

  lemma StillOneCurrent(m: Builds, b: Build)
    requires KeyedById(m) && OneCurrent(m) && b.status == Available
    requires b.id !in m || b.pinned || !OtherCurrent(m, b)
    ensures OneCurrent(Registered(m, b))
  {
    var r := Registered(m, b);
    forall x, y | x in r && y in r && x != y && Current(r[x], r[x].game, r[x].channel)
      ensures !Current(r[y], r[x].game, r[x].channel)
    {
      if x != b.id && y != b.id {
        assert r[x] == m[x] && (r[y] == m[y] || r[y].status == Deprecated);
      }
    }
  }

  /** Over any sequence of registrations of new tags, no channel ever has two current versions. */
  lemma {:induction false} OneCurrentOverEveryRun(m: Builds, bs: seq<Build>)
    requires KeyedById(m) && OneCurrent(m)
    requires forall i :: 0 <= i < |bs| ==> bs[i].status == Available && bs[i].id !in m
    requires forall i, j :: 0 <= i < j < |bs| ==> bs[i].id != bs[j].id
    ensures OneCurrent(RegisteredAll(m, bs))
    decreases |bs|
  {
    if bs != [] {
      StillOneCurrent(m, bs[0]);
      OneCurrentOverEveryRun(Registered(m, bs[0]), bs[1..]);
    }
  }

  ghost function RegisteredAll(m: Builds, bs: seq<Build>): Builds
    decreases |bs|
  {
    if bs == [] then m else RegisteredAll(Registered(m, bs[0]), bs[1..])
  }
}
