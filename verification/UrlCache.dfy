/** Resolving URLs within the API prefix of a request, and the cache in front. */
module UrlCache {
  import opened Text

  type Path = seq<string>

  /******* Resolution *******/

  /** The non-empty segments of a path; `current` is the one being read. */
  function SegmentsFrom(path: string, current: string): Path {
    if path == "" then Flush(current)
    else if path[0] == '/' then Flush(current) + SegmentsFrom(path[1..], "")
    else SegmentsFrom(path[1..], current + [path[0]])
  }

  function Flush(segment: string): Path {
    if segment == "" then [] else [segment]
  }

  function Segments(path: string): Path { SegmentsFrom(path, "") }

  lemma {:induction false} SegmentsFromIs(a: string, b: string, current: string)
    ensures SegmentsFrom(a + "/" + b, current) == SegmentsFrom(a, current) + SegmentsFrom(b, "")
    decreases |a|
  {
    var path := a + "/" + b;
    if a == "" {
      assert path == "/" + b && path[1..] == b;
    } else {
      assert path[1..] == a[1..] + "/" + b && path[0] == a[0];
      if a[0] == '/' {
        SegmentsFromIs(a[1..], b, "");
      } else {
        SegmentsFromIs(a[1..], b, current + [a[0]]);
      }
    }
  }

  lemma {:induction false} OneSegment(s: string, current: string)
    requires '/' !in s
    ensures SegmentsFrom(s, current) == if current + s == "" then [] else [current + s]
  {
    if s != "" {
      assert s[0] in s && forall c :: c in s[1..] ==> c in s;
      assert (current + [s[0]]) + s[1..] == current + s;
      OneSegment(s[1..], current + [s[0]]);
    } else {
      assert current + s == current;
    }
  }

  /** A path is cut at its slashes, and empty pieces do not count. */
  lemma SegmentsAre(a: string, b: string)
    ensures Segments(a + "/" + b) == Segments(a) + Segments(b)
    ensures '/' !in a ==> Segments(a) == if a == "" then [] else [a]
  {
    SegmentsFromIs(a, b, "");
    if '/' !in a {
      OneSegment(a, "");
      assert "" + a == a;
    }
  }

  /** The length of the longest common prefix. */
  function Common(a: Path, b: Path): (n: nat)
    ensures n <= |a| && n <= |b|
    ensures forall i :: 0 <= i < n ==> a[i] == b[i]
    ensures n < |a| && n < |b| ==> a[n] != b[n]
  {
    if a == [] || b == [] || a[0] != b[0] then 0 else 1 + Common(a[1..], b[1..])
  }

  lemma CommonIs(a: Path, b: Path, n: nat)
    requires n <= |a| && n <= |b|
    requires forall i :: 0 <= i < n ==> a[i] == b[i]
    requires n < |a| && n < |b| ==> a[n] != b[n]
    ensures Common(a, b) == n
  {
    var m := Common(a, b);
    assert forall i :: 0 <= i < m ==> a[i] == b[i];
    assert m < |a| && m < |b| ==> a[m] != b[m];
  }

  method MatchingPathSegments(pathA: string, pathB: string) returns (matching: nat)
    ensures matching == Common(Segments(pathA), Segments(pathB))
  {
    var a, b := Segments(pathA), Segments(pathB);
    matching := 0;
    while matching < |a| && matching < |b|
      invariant matching <= |a| && matching <= |b|
      invariant forall i :: 0 <= i < matching ==> a[i] == b[i]
    {
      if a[matching] != b[matching] {
        break;
      }
      matching := matching + 1;
    }
    CommonIs(a, b, matching);
  }

  /** Index `i` is the first of the best scores. */
  ghost predicate FirstBest(scores: seq<nat>, i: nat) {
    && i < |scores|
    && (forall j :: 0 <= j < |scores| ==> scores[j] <= scores[i])
    && (forall j :: 0 <= j < i ==> scores[j] < scores[i])
  }

  function Scores(path: Path, candidates: seq<Path>): seq<nat> {
    seq(|candidates|, i requires 0 <= i < |candidates| => Common(path, candidates[i]))
  }

  /** The candidate that shares the longest prefix with the request. */
  function Best(path: Path, candidates: seq<Path>): (best: Option<Path>)
    ensures candidates == [] <==> best.None?
    ensures best.Some? ==> exists i: nat :: FirstBest(Scores(path, candidates), i) && candidates[i] == best.value
  {
    if candidates == [] then None
    else
      var i := BestIndex(Scores(path, candidates));
      Some(candidates[i])
  }

  function BestIndex(scores: seq<nat>): (i: nat)
    requires scores != []
    ensures FirstBest(scores, i)
  {
    if |scores| == 1 then 0
    else
      var n := |scores| - 1;
      var i := BestIndex(scores[..n]);
      if scores[n] > scores[i] then n else i
  }

  lemma BestUnique(scores: seq<nat>, i: nat, j: nat)
    requires FirstBest(scores, i) && FirstBest(scores, j)
    ensures i == j
  {
    assert scores[i] <= scores[j] && scores[j] <= scores[i];
  }

  /** A request: its path, and the template of the route that serves it. */
  datatype Request = Request(scheme: string, host: Option<string>, path: Path, template: Option<Path>)

  datatype Url = Url(scheme: string, host: Option<string>, path: Path)

  type Params = map<string, string>

  /** For each route that knows the name, in order, the path it builds. */
  datatype Router = Router(candidates: (string, Params) -> seq<Path>)

  function Resolved(router: Router, r: Request, name: string, params: Params): Option<Url> {
    match Best(r.path, router.candidates(name, params))
    case None => None
    case Some(path) => Some(Url(r.scheme, r.host, path))
  }

  method UrlForSameApiPrefix(router: Router, r: Request, name: string, params: Params) returns (url: Option<Url>)
    ensures url == Resolved(router, r, name, params)
  {
    var candidates := router.candidates(name, params);
    var fallback: Option<Path> := None;
    var fallbackScore: int := -1;
    ghost var at: nat := 0;
    ghost var scores := Scores(r.path, candidates);
    hide Common;
    for i := 0 to |candidates|
      invariant i == 0 <==> fallback.None?
      invariant fallback.None? ==> fallbackScore == -1
      invariant fallback.Some? ==>
                  FirstBest(scores[..i], at) && fallback.value == candidates[at] && fallbackScore == scores[at]
    {
      var score := Common(r.path, candidates[i]);
      assert score == scores[i];
      if i > 0 {
        FirstBestMore(scores, i, at);
      }
      if score > fallbackScore {
        fallbackScore := score;
        fallback := Some(candidates[i]);
        at := i;
      }
    }
    assert scores[..|candidates|] == scores;
    if fallback.Some? {
      BestUnique(scores, at, BestIndex(scores));
      return Some(Url(r.scheme, r.host, fallback.value));
    }
    url := None;
  }

  lemma FirstBestMore(scores: seq<nat>, i: nat, at: nat)
    requires 0 < i < |scores| && FirstBest(scores[..i], at)
    ensures FirstBest(scores[..i + 1], if scores[i] > scores[at] then i else at)
  {
    assert scores[..i + 1] == scores[..i] + [scores[i]];
  }

  /******* When a template is enough to know the answer *******/

  predicate IsParam(segment: string) {
    |segment| >= 2 && segment[0] == '{' && segment[|segment| - 1] == '}'
  }

  /** A path that the template serves. */
  predicate Instance(template: Path, path: Path) {
    |path| == |template|
    && forall i :: 0 <= i < |path| ==> path[i] != "" && (!IsParam(template[i]) ==> path[i] == template[i])
  }

  /** How far a candidate follows the template before its first parameter. */
  function LiteralScore(template: Path, candidate: Path): nat {
    if template == [] || candidate == [] || IsParam(template[0]) || template[0] != candidate[0] then 0
    else 1 + LiteralScore(template[1..], candidate[1..])
  }

  function LiteralScores(template: Path, candidates: seq<Path>): seq<nat> {
    seq(|candidates|, i requires 0 <= i < |candidates| => LiteralScore(template, candidates[i]))
  }

  /** The candidate that wins when no parameter happens to match anything. */
  function Leader(template: Path, candidates: seq<Path>): Path
    requires candidates != []
  {
    candidates[BestIndex(LiteralScores(template, candidates))]
  }

  /** Some parameters let the candidate follow a request further than the leader:
      the two part at a segment that the template has, and up to there the
      candidate contradicts no literal of the template. */
  predicate CanOvertake(template: Path, leader: Path, candidate: Path) {
    var d := Common(leader, candidate);
    && d < |candidate| && d < |template|
    && forall i :: 0 <= i <= d ==> (!IsParam(template[i]) ==> template[i] == candidate[i])
  }

  predicate Unambiguous(template: Path, candidates: seq<Path>) {
    candidates == [] || forall c :: c in candidates ==> !CanOvertake(template, Leader(template, candidates), c)
  }

  lemma {:induction false} LiteralScoreIs(template: Path, candidate: Path)
    ensures var n := LiteralScore(template, candidate);
            && n <= |template| && n <= |candidate|
            && (forall i :: 0 <= i < n ==> !IsParam(template[i]) && template[i] == candidate[i])
            && (n < |template| && n < |candidate| ==> IsParam(template[n]) || template[n] != candidate[n])
  {
    if !(template == [] || candidate == [] || IsParam(template[0]) || template[0] != candidate[0]) {
      LiteralScoreIs(template[1..], candidate[1..]);
      var n := LiteralScore(template[1..], candidate[1..]);
      assert forall i :: 0 < i < 1 + n ==> template[i] == template[1..][i - 1] && candidate[i] == candidate[1..][i - 1];
    }
  }

  lemma Overtaken(template: Path, leader: Path, candidate: Path, path: Path)
    requires Instance(template, path) && Common(path, candidate) > Common(path, leader)
    ensures CanOvertake(template, leader, candidate)
  {
    var l := Common(path, leader);
    assert forall i :: 0 <= i < l ==> path[i] == leader[i];
    assert path[l] == candidate[l];
    CommonIs(leader, candidate, l);
    assert forall i :: 0 <= i <= l ==> path[i] == candidate[i];
  }

  /** The scores of a request never fall below the literal ones, and the leader
      comes before every candidate that follows the literals as far. */
  lemma LiteralIsLower(template: Path, candidate: Path, path: Path)
    requires Instance(template, path)
    ensures LiteralScore(template, candidate) <= Common(path, candidate)
    ensures Common(path, candidate) > LiteralScore(template, candidate) ==>
              LiteralScore(template, candidate) < |template| && IsParam(template[LiteralScore(template, candidate)])
  {
    LiteralScoreIs(template, candidate);
    var n := LiteralScore(template, candidate);
    var m := Common(path, candidate);
    assert forall i :: 0 <= i < n ==> path[i] == candidate[i];
    assert forall i :: 0 <= i < m ==> path[i] == candidate[i];
  }

  /** An earlier candidate whose literal score is lower stays behind the leader. */
  lemma EarlierStaysBehind(template: Path, leader: Path, candidate: Path, path: Path)
    requires Instance(template, path)
    requires LiteralScore(template, candidate) < LiteralScore(template, leader)
    ensures Common(path, candidate) < Common(path, leader)
  {
    LiteralIsLower(template, candidate, path);
    LiteralIsLower(template, leader, path);
    LiteralScoreIs(template, candidate);
    LiteralScoreIs(template, leader);
  }

  lemma LeaderWins(template: Path, candidates: seq<Path>, path: Path)
    requires candidates != [] && Instance(template, path) && Unambiguous(template, candidates)
    ensures Best(path, candidates) == Some(Leader(template, candidates))
  {
    var scores, literal := Scores(path, candidates), LiteralScores(template, candidates);
    var l := BestIndex(literal);
    forall j | 0 <= j < |scores| ensures scores[j] <= scores[l] && (j < l ==> scores[j] < scores[l]) {
      assert candidates[j] in candidates;
      if scores[j] > scores[l] {
        Overtaken(template, candidates[l], candidates[j], path);
      }
      if j < l {
        assert literal[j] == LiteralScore(template, candidates[j]) && literal[j] < literal[l];
        EarlierStaysBehind(template, candidates[l], candidates[j], path);
      }
    }
    assert FirstBest(scores, l);
    BestUnique(scores, l, BestIndex(scores));
  }

  /******* Requests that tell candidates apart *******/

  /** Longer than every segment. */
  function Longest(paths: seq<Path>): nat {
    if paths == [] then 0
    else
      var here := LongestIn(paths[0]);
      var rest := Longest(paths[1..]);
      if here > rest then here else rest
  }

  function LongestIn(path: Path): (n: nat)
    ensures forall i :: 0 <= i < |path| ==> |path[i]| <= n
  {
    if path == [] then 0
    else
      var rest := LongestIn(path[1..]);
      if |path[0]| > rest then |path[0]| else rest
  }

  lemma {:induction false} LongestCovers(paths: seq<Path>, p: Path, i: nat)
    requires p in paths && i < |p|
    ensures |p[i]| <= Longest(paths)
  {
    if paths[0] != p {
      LongestCovers(paths[1..], p, i);
    }
  }

  /** A request whose parameters match no segment of any candidate. */
  function Neutral(template: Path, candidates: seq<Path>): Path {
    seq(|template|, i requires 0 <= i < |template| =>
      if IsParam(template[i]) || template[i] == "" then seq(Longest(candidates) + 1, _ => 'x') else template[i])
  }

  lemma NeutralScores(template: Path, candidates: seq<Path>)
    requires forall i :: 0 <= i < |template| ==> template[i] != ""
    ensures Instance(template, Neutral(template, candidates))
    ensures Scores(Neutral(template, candidates), candidates) == LiteralScores(template, candidates)
  {
    var path := Neutral(template, candidates);
    forall j | 0 <= j < |candidates| ensures Common(path, candidates[j]) == LiteralScore(template, candidates[j]) {
      var c := candidates[j];
      var n := LiteralScore(template, c);
      LiteralScoreIs(template, c);
      if n < |template| && n < |c| && IsParam(template[n]) {
        LongestCovers(candidates, c, n);
        assert |path[n]| > |c[n]|;
      }
      CommonIs(path, c, n);
    }
  }

  /** A request that follows the candidate wherever the template lets it. */
  function Following(template: Path, candidate: Path): Path {
    seq(|template|, i requires 0 <= i < |template| =>
      if IsParam(template[i]) && i < |candidate| && candidate[i] != "" then candidate[i]
      else if IsParam(template[i]) then "x" else template[i])
  }

  lemma FollowingOvertakes(template: Path, leader: Path, candidate: Path)
    requires (forall i :: 0 <= i < |template| ==> template[i] != "") && (forall i :: 0 <= i < |candidate| ==> candidate[i] != "")
    requires CanOvertake(template, leader, candidate)
    ensures Instance(template, Following(template, candidate))
    ensures Common(Following(template, candidate), leader) < Common(Following(template, candidate), candidate)
  {
    var path := Following(template, candidate);
    var d := Common(leader, candidate);
    assert forall i :: 0 <= i <= d ==> path[i] == candidate[i];
    var l, s := Common(path, leader), Common(path, candidate);
    assert forall i :: 0 <= i < l ==> path[i] == leader[i];
    assert d < |leader| ==> leader[d] != path[d];
  }

  /** All requests of a route get the same answer exactly when no candidate can
      overtake the leader. */
  lemma SameAnswerIff(template: Path, candidates: seq<Path>)
    requires forall i :: 0 <= i < |template| ==> template[i] != ""
    requires forall c, i :: c in candidates && 0 <= i < |c| ==> c[i] != ""
    ensures (forall p, q :: Instance(template, p) && Instance(template, q) ==> Best(p, candidates) == Best(q, candidates))
        <==> Unambiguous(template, candidates)
  {
    if Unambiguous(template, candidates) {
      forall p, q | Instance(template, p) && Instance(template, q) ensures Best(p, candidates) == Best(q, candidates) {
        if candidates != [] {
          LeaderWins(template, candidates, p);
          LeaderWins(template, candidates, q);
        }
      }
    } else {
      var leader := Leader(template, candidates);
      var c :| c in candidates && CanOvertake(template, leader, c);
      var p, q := Neutral(template, candidates), Following(template, c);
      NeutralScores(template, candidates);
      FollowingOvertakes(template, leader, c);
      assert Best(p, candidates) == Some(leader);
      var j :| 0 <= j < |candidates| && candidates[j] == c;
      var i := BestIndex(Scores(q, candidates));
      assert Scores(q, candidates)[j] <= Scores(q, candidates)[i];
      assert Best(q, candidates) != Some(leader);
    }
  }

  /** That candidates part at a literal segment of the template is not enough:
      a parameter before it may match one request and not the next. */
  lemma PartingAtALiteralIsNotEnough()
    ensures var template := ["v1", "{name}", "lit"];
            var candidates := [["v1", "a", "foo"], ["v1", "a", "lit"]];
            && Common(candidates[0], candidates[1]) == 2 && !IsParam(template[2])
            && Instance(template, ["v1", "a", "lit"]) && Instance(template, ["v1", "b", "lit"])
            && Best(["v1", "a", "lit"], candidates) != Best(["v1", "b", "lit"], candidates)
  {
    var candidates := [["v1", "a", "foo"], ["v1", "a", "lit"]];
    CommonIs(candidates[0], candidates[1], 2);
    CommonIs(["v1", "a", "lit"], candidates[0], 2);
    CommonIs(["v1", "a", "lit"], candidates[1], 3);
    CommonIs(["v1", "b", "lit"], candidates[0], 1);
    CommonIs(["v1", "b", "lit"], candidates[1], 1);
    assert FirstBest(Scores(["v1", "a", "lit"], candidates), 1);
    assert FirstBest(Scores(["v1", "b", "lit"], candidates), 0);
    BestUnique(Scores(["v1", "a", "lit"], candidates), 1, BestIndex(Scores(["v1", "a", "lit"], candidates)));
    BestUnique(Scores(["v1", "b", "lit"], candidates), 0, BestIndex(Scores(["v1", "b", "lit"], candidates)));
  }

  /******* The cache *******/

  datatype Key = Key(name: string, scheme: string, host: Option<string>, signature: Path, params: Params)

  /** The template of the route, or the path of a request without one. */
  function Signature(r: Request): Path {
    if r.template.Some? && r.template.value != [] then r.template.value else r.path
  }

  function KeyOf(r: Request, name: string, params: Params): Key {
    Key(name, r.scheme, r.host, Signature(r), params)
  }

  /** Requests of one route, with the same scheme and host, share their entry for
      a name and its parameters; any difference among these separates them. */
  lemma KeysAgreeIff(q: Request, r: Request, name: string, params: Params, other: string, others: Params)
    requires q.template.Some? && q.template.value != [] && r.template.Some? && r.template.value != []
    ensures KeyOf(q, name, params) == KeyOf(r, other, others) <==>
              && name == other && params == others
              && q.scheme == r.scheme && q.host == r.host && q.template == r.template
  {
  }

  /** Without a route, the path itself stands for the template. */
  lemma KeysWithoutRoute(q: Request, r: Request, name: string, params: Params)
    requires q.template.None? && r.template.None? && q.scheme == r.scheme && q.host == r.host
    ensures KeyOf(q, name, params) == KeyOf(r, name, params) <==> q.path == r.path
  {
  }

  predicate Served(r: Request) {
    Instance(Signature(r), r.path)
  }

  /** What every request with this key resolves to. */
  function Expected(router: Router, k: Key): Option<Url> {
    var candidates := router.candidates(k.name, k.params);
    if candidates == [] then None else Some(Url(k.scheme, k.host, Leader(k.signature, candidates)))
  }

  lemma ResolvedAsExpected(router: Router, r: Request, name: string, params: Params)
    requires Served(r) && Unambiguous(Signature(r), router.candidates(name, params))
    ensures Resolved(router, r, name, params) == Expected(router, KeyOf(r, name, params))
  {
    if router.candidates(name, params) != [] {
      LeaderWins(Signature(r), router.candidates(name, params), r.path);
    }
  }

  const MAX_SIZE := 10240

  ghost predicate Sound(router: Router, items: seq<(Key, Url)>) {
    && (forall i :: 0 <= i < |items| ==> Expected(router, items[i].0) == Some(items[i].1))
    && (forall i, j :: 0 <= i < j < |items| ==> items[i].0 != items[j].0)
  }

  lemma SoundMoved(router: Router, items: seq<(Key, Url)>, at: nat)
    requires Sound(router, items) && at < |items|
    ensures Sound(router, items[..at] + items[at + 1..] + [items[at]])
    ensures Expected(router, items[at].0) == Some(items[at].1)
  {
    hide Expected;
    var moved := items[..at] + items[at + 1..] + [items[at]];
    assert forall i :: 0 <= i < |moved| ==>
             moved[i] == items[if i < at then i else if i < |items| - 1 then i + 1 else at];
  }

  lemma SoundAdded(router: Router, items: seq<(Key, Url)>, k: Key, url: Url)
    requires Sound(router, items) && Expected(router, k) == Some(url)
    requires forall i :: 0 <= i < |items| ==> items[i].0 != k
    ensures Sound(router, items + [(k, url)])
    ensures items != [] ==> Sound(router, items[1..])
  {
    hide Expected;
  }

  /** The entries after one was used: it comes last, and if it is new the oldest
      one makes room for it when there are 10240. */
  function Used(items: seq<(Key, Url)>, k: Key, url: Url): seq<(Key, Url)> {
    var others := Without(items, k);
    (if |others| == |items| && |items| == 10240 then others[1..] else others) + [(k, url)]
  }

  function Without(items: seq<(Key, Url)>, k: Key): (r: seq<(Key, Url)>)
    ensures |r| <= |items|
  {
    if items == [] then []
    else if items[0].0 == k then Without(items[1..], k)
    else [items[0]] + Without(items[1..], k)
  }

  lemma {:induction false} WithoutAbsent(items: seq<(Key, Url)>, k: Key)
    requires forall i :: 0 <= i < |items| ==> items[i].0 != k
    ensures Without(items, k) == items
  {
    if items != [] {
      WithoutAbsent(items[1..], k);
    }
  }

  lemma {:induction false} WithoutAt(items: seq<(Key, Url)>, at: nat)
    requires at < |items| && forall i :: 0 <= i < |items| && i != at ==> items[i].0 != items[at].0
    ensures Without(items, items[at].0) == items[..at] + items[at + 1..]
  {
    var k := items[at].0;
    if at == 0 {
      WithoutAbsent(items[1..], k);
    } else {
      assert items[1..][at - 1] == items[at];
      WithoutAt(items[1..], at - 1);
      assert items[..at] + items[at + 1..] == [items[0]] + (items[1..][..at - 1] + items[1..][at..]);
    }
  }

  lemma UsedHit(items: seq<(Key, Url)>, at: nat)
    requires at < |items| && forall i, j :: 0 <= i < j < |items| ==> items[i].0 != items[j].0
    ensures Used(items, items[at].0, items[at].1) == items[..at] + items[at + 1..] + [items[at]]
  {
    WithoutAt(items, at);
    assert items[at] == (items[at].0, items[at].1);
  }

  lemma UsedMiss(items: seq<(Key, Url)>, k: Key, url: Url)
    requires |items| <= MAX_SIZE && forall i :: 0 <= i < |items| ==> items[i].0 != k
    ensures Used(items, k, url) == (if |items| == MAX_SIZE then items[1..] else items) + [(k, url)]
  {
    WithoutAbsent(items, k);
  }

  /** Least recently used entries first. */
  class LruCache {
    const router: Router
    var items: seq<(Key, Url)>

    constructor (router: Router)
      ensures this.router == router && Valid() && items == []
    {
      this.router, items := router, [];
    }

    /** Every entry is what any request with its key resolves to. */
    ghost predicate Valid()
      reads this
    {
      |items| <= MAX_SIZE && Sound(router, items)
    }

    method Position(k: Key) returns (at: int)
      ensures at == -1 ==> forall i :: 0 <= i < |items| ==> items[i].0 != k
      ensures at != -1 ==> 0 <= at < |items| && items[at].0 == k
    {
      at := -1;
      for i := 0 to |items|
        invariant at == -1 && forall j :: 0 <= j < i ==> items[j].0 != k
      {
        if items[i].0 == k {
          return i;
        }
      }
    }

    /** Answer from the cache, or resolve, evict and remember: the caller cannot
        tell which. A name that no route knows is not remembered. */
    method CachedUrlFor(r: Request, name: string, params: Params) returns (url: Option<Url>)
      requires Valid() && Served(r) && Unambiguous(Signature(r), router.candidates(name, params))
      modifies this
      ensures Valid()
      ensures url == Resolved(router, r, name, params)
      ensures url.None? ==> items == old(items)
      ensures url.Some? ==> items == Used(old(items), KeyOf(r, name, params), url.value)
    {
      hide Expected, Resolved, Served, Unambiguous, Signature, Sound, KeyOf;
      var k := KeyOf(r, name, params);
      ResolvedAsExpected(router, r, name, params);
      var at := Position(k);
      if at != -1 {
        url := Hit(at);
      } else {
        url := UrlForSameApiPrefix(router, r, name, params);
        if url.Some? {
          Remember(k, url.value);
        }
      }
    }

    method Hit(at: nat) returns (url: Option<Url>)
      requires Valid() && at < |items|
      modifies this
      ensures Valid() && url == Expected(router, old(items)[at].0)
      ensures url.Some? && items == Used(old(items), old(items)[at].0, url.value)
    {
      UsedHit(items, at);
      SoundMoved(router, items, at);
      hide Expected, Sound;
      var hit := items[at];
      items := items[..at] + items[at + 1..] + [hit];
      url := Some(hit.1);
    }

    method Remember(k: Key, url: Url)
      requires Valid() && Expected(router, k) == Some(url)
      requires forall i :: 0 <= i < |items| ==> items[i].0 != k
      modifies this
      ensures Valid() && items == Used(old(items), k, url)
    {
      UsedMiss(items, k, url);
      SoundAdded(router, items, k, url);
      hide Expected, Sound;
      if |items| == MAX_SIZE {
        SoundAdded(router, items[1..], k, url);
        items := items[1..];
      }
      items := items + [(k, url)];
    }
  }
}
