/**
 * Route choice (`match_route`, `route_specificity` and `most_specific_matching_route` in
 * crates/bicdb-app-runtime/src/http.rs).
 *
 * A `{}` segment is a parameter when a route is matched and a literal when its
 * specificity is measured. `decode` stands for percent-decoding, which may fail.
 */
module Routes {
  import opened Prelude
  import opened Sequences
  import opened Text

  datatype Route = Route(method': string, template: string, target: string)

  type Parameters = map<string, string>

  type Decoder = string -> Option<string>

  function Segments(text: string): (segments: seq<string>)
    ensures segments != []
  {
    Split(Trim(text, IsSlash), "/")
  }

  predicate IsParameter(segment: string) {
    |segment| >= 2 && segment[0] == '{' && segment[|segment| - 1] == '}'
  }

  /** What counts as a parameter for specificity: a parameter with a name. */
  predicate IsNamed(segment: string) {
    IsParameter(segment) && |segment| > 2
  }

  /** The parameters of the first `count` segments, or nothing when one does not match. */
  function MatchSegments(template: seq<string>, path: seq<string>, count: nat, decode: Decoder): Option<Parameters>
    requires count <= |template| == |path|
  {
    if count == 0 then Some(map[])
    else
      var before := MatchSegments(template, path, count - 1, decode);
      var segment, actual := template[count - 1], path[count - 1];
      if before.None? then None
      else if IsParameter(segment) then
        var value := decode(actual);
        if value.None? then None else Some(before.value[segment[1..|segment| - 1] := value.value])
      else if segment == actual then before
      else None
  }

  function Match(template: string, path: string, decode: Decoder): Option<Parameters> {
    var t, p := Segments(template), Segments(path);
    if |t| != |p| then None else MatchSegments(t, p, |t|, decode)
  }

  method MatchRoute(template: string, path: string, decode: Decoder) returns (parameters: Option<Parameters>)
    ensures parameters == Match(template, path, decode)
  {
    var t, p := Segments(template), Segments(path);
    if |t| != |p| {
      return None;
    }
    var collected: Parameters := map[];
    for i := 0 to |t|
      invariant MatchSegments(t, p, i, decode) == Some(collected)
    {
      if IsParameter(t[i]) {
        var value := decode(p[i]);
        if value.None? {
          MismatchIsFinal(t, p, i + 1, decode);
          return None;
        }
        collected := collected[t[i][1..|t[i]| - 1] := value.value];
      } else if t[i] != p[i] {
        MismatchIsFinal(t, p, i + 1, decode);
        return None;
      }
    }
    return Some(collected);
  }

  lemma {:induction false} MismatchIsFinal(template: seq<string>, path: seq<string>, count: nat, decode: Decoder)
    requires count <= |template| == |path| && MatchSegments(template, path, count, decode).None?
    ensures MatchSegments(template, path, |template|, decode).None?
    decreases |template| - count
  {
    if count < |template| {
      MismatchIsFinal(template, path, count + 1, decode);
    }
  }

  /** What a match means, segment by segment. */
  predicate Fits(template: seq<string>, path: seq<string>, decode: Decoder) {
    && |template| == |path|
    && forall i :: 0 <= i < |template| ==>
         if IsParameter(template[i]) then decode(path[i]).Some? else template[i] == path[i]
  }

  lemma {:induction false} MatchMeansFits(template: seq<string>, path: seq<string>, count: nat, decode: Decoder)
    requires count <= |template| == |path|
    ensures MatchSegments(template, path, count, decode).Some? <==> Fits(template[..count], path[..count], decode)
  {
    if count > 0 {
      MatchMeansFits(template, path, count - 1, decode);
      assert template[..count] == template[..count - 1] + [template[count - 1]];
      assert path[..count] == path[..count - 1] + [path[count - 1]];
    }
  }

  /** The template segment that is the parameter `name`. */
  function Braced(name: string): string {
    "{" + name + "}"
  }

  lemma BracedIsParameter(segment: string, name: string)
    ensures segment == Braced(name) <==> IsParameter(segment) && segment[1..|segment| - 1] == name
  {
    if IsParameter(segment) {
      assert segment == "{" + segment[1..|segment| - 1] + "}";
    }
  }

  /** The last of the first `count` segments that is the parameter `name`. */
  function LastBraced(template: seq<string>, count: nat, name: string): (last: Option<nat>)
    requires count <= |template|
    ensures last.Some? ==> last.value < count && template[last.value] == Braced(name)
    ensures forall i :: 0 <= i < count && template[i] == Braced(name) ==> last.Some? && i <= last.value
  {
    if count == 0 then None
    else if template[count - 1] == Braced(name) then Some(count - 1)
    else LastBraced(template, count - 1, name)
  }

  lemma {:induction false} SegmentsBind(template: seq<string>, path: seq<string>, count: nat, decode: Decoder,
                                        name: string)
    requires count <= |template| == |path| && MatchSegments(template, path, count, decode).Some?
    ensures var bound, last := MatchSegments(template, path, count, decode).value, LastBraced(template, count, name);
      && (name in bound <==> last.Some?)
      && (last.Some? ==> decode(path[last.value]) == Some(bound[name]))
  {
    if count > 0 {
      SegmentsBind(template, path, count - 1, decode, name);
      BracedIsParameter(template[count - 1], name);
    }
  }

  /** A parameter is bound exactly when the template has it, to the decoding of its last segment. */
  lemma ParametersAreBound(template: string, path: string, decode: Decoder, name: string)
    requires Match(template, path, decode).Some?
    ensures var t, p, bound := Segments(template), Segments(path), Match(template, path, decode).value;
      && |t| == |p|
      && (name in bound <==> exists i :: 0 <= i < |t| && t[i] == Braced(name))
      && (forall i :: 0 <= i < |t| && t[i] == Braced(name)
                      && (forall j :: i < j < |t| ==> t[j] != Braced(name)) ==>
            decode(p[i]) == Some(bound[name]))
  {
    SegmentsBind(Segments(template), Segments(path), |Segments(template)|, decode, name);
  }

  predicate Matches(route: Route, method': string, path: string, decode: Decoder) {
    route.method' == method' && Match(route.template, path, decode).Some?
  }

  lemma MatchesMeansFits(route: Route, method': string, path: string, decode: Decoder)
    ensures Matches(route, method', path, decode) <==>
            route.method' == method' && Fits(Segments(route.template), Segments(path), decode)
  {
    var t, p := Segments(route.template), Segments(path);
    if |t| == |p| {
      MatchMeansFits(t, p, |t|, decode);
      assert t[..|t|] == t && p[..|p|] == p;
    }
  }

  // ---------------------------------------------------------------- specificity

  /** One entry per segment; literal segments weigh more. */
  function Specificity(segments: seq<string>): seq<bool> {
    seq(|segments|, i requires 0 <= i < |segments| => !IsNamed(segments[i]))
  }

  /** The lexicographic order of vectors of flags, false first. */
  predicate Greater(a: seq<bool>, b: seq<bool>) {
    if a == [] then false
    else if b == [] then true
    else if a[0] != b[0] then a[0]
    else Greater(a[1..], b[1..])
  }

  lemma {:induction false} GreaterIsTotal(a: seq<bool>, b: seq<bool>)
    ensures !Greater(a, a)
    ensures Greater(a, b) || Greater(b, a) || a == b
    ensures Greater(a, b) ==> !Greater(b, a)
  {
    if a != [] {
      GreaterIsTotal(a[1..], if b == [] then [] else b[1..]);
      if b != [] && a[0] == b[0] && a[1..] == b[1..] {
        assert a == [a[0]] + a[1..] && b == [b[0]] + b[1..];
      }
    }
  }

  lemma {:induction false} GreaterIsTransitive(a: seq<bool>, b: seq<bool>, c: seq<bool>)
    requires !Greater(b, a) && Greater(b, c)
    ensures Greater(a, c)
  {
    if b == [] || a == [] || c == [] {
    } else if a[0] == b[0] == c[0] {
      GreaterIsTransitive(a[1..], b[1..], c[1..]);
    }
  }

  /** A vector that is nowhere larger is not greater. */
  lemma {:induction false} PointwiseNotGreater(a: seq<bool>, b: seq<bool>)
    requires |a| == |b| && forall i :: 0 <= i < |a| ==> (a[i] ==> b[i])
    ensures !Greater(a, b)
  {
    if a != [] {
      PointwiseNotGreater(a[1..], b[1..]);
    }
  }

  // ---------------------------------------------------------------- the choice

  function Weight(route: Route): seq<bool> {
    Specificity(Segments(route.template))
  }

  /** `i` is the first of the most specific matching routes. */
  ghost predicate IsChoice(routes: seq<Route>, method': string, path: string, decode: Decoder, i: nat) {
    && i < |routes| && Matches(routes[i], method', path, decode)
    && (forall j :: 0 <= j < |routes| && Matches(routes[j], method', path, decode) ==>
          !Greater(Weight(routes[j]), Weight(routes[i])))
    && (forall j :: 0 <= j < i && Matches(routes[j], method', path, decode) ==>
          Greater(Weight(routes[i]), Weight(routes[j])))
  }

  method MostSpecificMatchingRoute(routes: seq<Route>, method': string, path: string, decode: Decoder)
    returns (best: Option<(Route, Parameters)>, ghost index: nat)
    ensures best.None? <==> forall i :: 0 <= i < |routes| ==> !Matches(routes[i], method', path, decode)
    ensures best.Some? ==>
      && IsChoice(routes, method', path, decode, index)
      && best.value.0 == routes[index] && Match(routes[index].template, path, decode) == Some(best.value.1)
  {
    best, index := None, 0;
    for i := 0 to |routes|
      invariant best.None? <==> forall j :: 0 <= j < i ==> !Matches(routes[j], method', path, decode)
      invariant best.Some? ==>
        && IsChoice(routes[..i], method', path, decode, index)
        && best.value.0 == routes[index] && Match(routes[index].template, path, decode) == Some(best.value.1)
    {
      if best.Some? {
        NextChoice(routes, method', path, decode, i, index);
      } else {
        FirstChoice(routes, method', path, decode, i);
      }
      if routes[i].method' != method' {
        continue;
      }
      var parameters := MatchRoute(routes[i].template, path, decode);
      if parameters.None? {
        continue;
      }
      if best.None? || Greater(Weight(routes[i]), Weight(best.value.0)) {
        best, index := Some((routes[i], parameters.value)), i;
      }
    }
    assert routes[..|routes|] == routes;
  }

  lemma FirstChoice(routes: seq<Route>, method': string, path: string, decode: Decoder, n: nat)
    requires n < |routes|
    requires forall j :: 0 <= j < n ==> !Matches(routes[j], method', path, decode)
    ensures Matches(routes[n], method', path, decode) ==> IsChoice(routes[..n + 1], method', path, decode, n)
  {
    GreaterIsTotal(Weight(routes[n]), Weight(routes[n]));
  }

  /** How the choice among the first `n` routes changes with one more. */
  lemma NextChoice(routes: seq<Route>, method': string, path: string, decode: Decoder, n: nat, i: nat)
    requires n < |routes| && IsChoice(routes[..n], method', path, decode, i)
    ensures Matches(routes[n], method', path, decode) && Greater(Weight(routes[n]), Weight(routes[i])) ==>
      IsChoice(routes[..n + 1], method', path, decode, n)
    ensures !(Matches(routes[n], method', path, decode) && Greater(Weight(routes[n]), Weight(routes[i]))) ==>
      IsChoice(routes[..n + 1], method', path, decode, i)
  {
    var before, after := routes[..n], routes[..n + 1];
    assert forall j :: 0 <= j < n ==> after[j] == before[j] == routes[j];
    if Matches(routes[n], method', path, decode) && Greater(Weight(routes[n]), Weight(routes[i])) {
      GreaterIsTotal(Weight(routes[n]), Weight(routes[n]));
      forall j | 0 <= j < n && Matches(routes[j], method', path, decode)
        ensures Greater(Weight(routes[n]), Weight(routes[j])) && !Greater(Weight(routes[j]), Weight(routes[n]))
      {
        assert Matches(before[j], method', path, decode);
        Outranks(Weight(routes[n]), Weight(routes[i]), Weight(routes[j]));
      }
    }
  }

  lemma Outranks(a: seq<bool>, b: seq<bool>, c: seq<bool>)
    requires Greater(a, b) && !Greater(c, b)
    ensures Greater(a, c) && !Greater(c, a)
  {
    GreaterIsTotal(a, b);
    GreaterIsTotal(b, c);
    if Greater(b, c) {
      GreaterIsTransitive(a, b, c);
    }
    GreaterIsTotal(a, c);
  }

  /** What is not outranked is set wherever the other is, at the first place where they can differ. */
  lemma {:induction false} NotOutranked(a: seq<bool>, b: seq<bool>, k: nat)
    requires |a| == |b| && k < |a| && !Greater(b, a) && a[..k] == b[..k] && b[k]
    ensures a[k]
  {
    if k > 0 {
      assert a[0] == a[..k][0] == b[..k][0] == b[0];
      assert a[1..][..k - 1] == a[..k][1..] == b[..k][1..] == b[1..][..k - 1];
      NotOutranked(a[1..], b[1..], k - 1);
    }
  }

  /**
   * Against any other route that matches the path, the chosen one has the literal segment at
   * the first place where one of the two has a literal and the other a named parameter.
   */
  lemma ChosenIsLiteralFirst(routes: seq<Route>, method': string, path: string, decode: Decoder,
                             i: nat, j: nat, k: nat)
    requires IsChoice(routes, method', path, decode, i)
    requires j < |routes| && Matches(routes[j], method', path, decode)
    ensures var a, b := Segments(routes[i].template), Segments(routes[j].template);
      && |a| == |b|
      && (k < |a| && (forall m :: 0 <= m < k ==> (IsNamed(a[m]) <==> IsNamed(b[m]))) && IsNamed(a[k]) ==> IsNamed(b[k]))
  {
    MatchesMeansFits(routes[i], method', path, decode);
    MatchesMeansFits(routes[j], method', path, decode);
    var a, b := Segments(routes[i].template), Segments(routes[j].template);
    if k < |a| && (forall m :: 0 <= m < k ==> (IsNamed(a[m]) <==> IsNamed(b[m]))) && !IsNamed(b[k]) {
      assert Specificity(a)[..k] == Specificity(b)[..k];
      NotOutranked(Specificity(a), Specificity(b), k);
    }
  }

  // ---------------------------------------------------------------- independence of the manifest order

  /** Equal up to the names of parameters. */
  ghost predicate SameShape(a: seq<string>, b: seq<string>) {
    |a| == |b| && forall i :: 0 <= i < |a| ==> a[i] == b[i] || (IsNamed(a[i]) && IsNamed(b[i]))
  }

  /** No two different routes of the method share a shape. */
  ghost predicate Unambiguous(routes: seq<Route>, method': string) {
    forall r, q :: r in routes && q in routes && r.method' == method' && q.method' == method' && r != q ==>
      !SameShape(Segments(r.template), Segments(q.template))
  }

  ghost predicate NoBareBraces(routes: seq<Route>) {
    forall r :: r in routes ==> "{}" !in Segments(r.template)
  }

  /** All orders of the manifest choose the same route for every path. */
  ghost predicate OrderIndependent(routes: seq<Route>, method': string, decode: Decoder) {
    forall p: seq<Route>, q: seq<Route>, path, i: nat, j: nat ::
      && multiset(p) == multiset(routes) && multiset(q) == multiset(routes)
      && IsChoice(p, method', path, decode, i) && IsChoice(q, method', path, decode, j) ==>
        p[i] == q[j]
  }

  /** Two segments of equal weight that one path segment can match. */
  predicate SegmentsTie(a: string, b: string) {
    a == b || (IsNamed(a) && IsNamed(b)) || (a == "{}" && !IsNamed(b)) || (b == "{}" && !IsNamed(a))
  }

  ghost predicate Ties(a: seq<string>, b: seq<string>) {
    |a| == |b| && forall i :: 0 <= i < |a| ==> SegmentsTie(a[i], b[i])
  }

  /** No two different routes of the method tie. */
  ghost predicate Untied(routes: seq<Route>, method': string) {
    forall r, q :: r in routes && q in routes && r.method' == method' && q.method' == method' && r != q ==>
      !Ties(Segments(r.template), Segments(q.template))
  }

  lemma EqualWeightTies(a: seq<string>, b: seq<string>, path: seq<string>, decode: Decoder)
    requires Fits(a, path, decode) && Fits(b, path, decode) && Specificity(a) == Specificity(b)
    ensures Ties(a, b)
  {
    forall i | 0 <= i < |a| ensures SegmentsTie(a[i], b[i]) {
      assert Specificity(a)[i] == Specificity(b)[i];
      BareBraces(a[i]);
      BareBraces(b[i]);
    }
  }

  lemma TiesWithoutBraces(a: seq<string>, b: seq<string>)
    requires "{}" !in a && "{}" !in b
    ensures Ties(a, b) <==> SameShape(a, b)
  {
    forall i | 0 <= i < |a| && |a| == |b|
      ensures SegmentsTie(a[i], b[i]) <==> a[i] == b[i] || (IsNamed(a[i]) && IsNamed(b[i]))
    {
      assert a[i] in a && b[i] in b;
    }
  }

  lemma TiesWeighEqual(a: seq<string>, b: seq<string>)
    requires Ties(a, b)
    ensures Specificity(a) == Specificity(b)
  {
    forall i | 0 <= i < |a| ensures Specificity(a)[i] == Specificity(b)[i] {
      assert SegmentsTie(a[i], b[i]);
    }
  }

  lemma BareBraces(segment: string)
    ensures IsParameter(segment) && !IsNamed(segment) ==> segment == "{}"
  {
  }

  lemma InBoth(p: seq<Route>, routes: seq<Route>, i: nat)
    requires multiset(p) == multiset(routes) && i < |p|
    ensures p[i] in routes
  {
    assert p[i] in multiset(p);
  }

  /** Two choices among the same routes weigh the same, and match the same path. */
  lemma ChoicesWeighEqual(p: seq<Route>, q: seq<Route>, method': string, path: string, decode: Decoder, i: nat, j: nat)
    requires multiset(p) == multiset(q)
    requires IsChoice(p, method', path, decode, i) && IsChoice(q, method', path, decode, j)
    ensures Weight(p[i]) == Weight(q[j])
    ensures p[i].method' == q[j].method' == method'
    ensures Fits(Segments(p[i].template), Segments(path), decode)
    ensures Fits(Segments(q[j].template), Segments(path), decode)
  {
    InBoth(p, q, i);
    InBoth(q, p, j);
    GreaterIsTotal(Weight(p[i]), Weight(q[j]));
    MatchesMeansFits(p[i], method', path, decode);
    MatchesMeansFits(q[j], method', path, decode);
  }

  /** If no two routes tie, `{}` segments or not, every order chooses the same route for every path. */
  lemma UntiedIsOrderIndependent(routes: seq<Route>, method': string, decode: Decoder)
    requires Untied(routes, method')
    ensures OrderIndependent(routes, method', decode)
  {
    forall p: seq<Route>, q: seq<Route>, path, i: nat, j: nat |
      && multiset(p) == multiset(routes) && multiset(q) == multiset(routes)
      && IsChoice(p, method', path, decode, i) && IsChoice(q, method', path, decode, j)
      ensures p[i] == q[j]
    {
      InBoth(p, routes, i);
      InBoth(q, routes, j);
      ChoicesWeighEqual(p, q, method', path, decode, i, j);
      EqualWeightTies(Segments(p[i].template), Segments(q[j].template), Segments(path), decode);
    }
  }

  // ---------------------------------------------------------------- and only then

  /** Lower-case letters stand for themselves. */
  ghost predicate DecodesLetters(decode: Decoder) {
    forall s: string :: (forall i :: 0 <= i < |s| ==> s[i] == 'x') ==> decode(s).Some?
  }

  function TotalLength(routes: seq<Route>): nat {
    if routes == [] then 0 else |routes[0].template| + TotalLength(routes[1..])
  }

  function Xs(n: nat): string {
    seq(n, i => 'x')
  }

  lemma {:induction false} PiecesAreShort(s: string, i: nat)
    requires i < |Split(s, "/")|
    ensures |Split(s, "/")[i]| <= |s|
    decreases |s|
  {
    match Find(s, "/")
    case None =>
    case Some(k) =>
      if i > 0 {
        PiecesAreShort(s[k + 1..], i - 1);
      }
  }

  lemma {:induction false} TrimStartIsShort(s: string)
    ensures |TrimStart(s, IsSlash)| <= |s|
  {
    if s != [] && IsSlash(s[0]) {
      TrimStartIsShort(s[1..]);
    }
  }

  lemma SegmentsAreShort(text: string, i: nat)
    requires i < |Segments(text)|
    ensures |Segments(text)[i]| <= |text|
  {
    PiecesAreShort(Trim(text, IsSlash), i);
    TrimStartIsShort(text);
    TrimEndEnds(TrimStart(text, IsSlash), IsSlash);
  }

  lemma {:induction false} TotalLengthBounds(routes: seq<Route>, r: Route)
    requires r in routes
    ensures |r.template| <= TotalLength(routes)
  {
    if r != routes[0] {
      assert r in routes[1..];
      TotalLengthBounds(routes[1..], r);
    }
  }

  /** Segments without slashes, and not starting or ending an absolute path. */
  ghost predicate PathLike(segments: seq<string>) {
    && segments != [] && (forall i :: 0 <= i < |segments| ==> '/' !in segments[i])
    && (|segments| > 1 ==> segments[0] != "" && segments[|segments| - 1] != "")
  }

  lemma {:induction false} JoinEnds(segments: seq<string>)
    requires segments != [] && (forall i :: 0 <= i < |segments| ==> '/' !in segments[i])
    ensures var text := Join(segments, "/");
            && (segments[0] != "" ==> text != [] && text[0] == segments[0][0])
            && (segments[0] == "" && |segments| > 1 ==> text != [] && text[0] == '/')
            && (segments[|segments| - 1] != "" ==>
                  text != [] && text[|text| - 1] == segments[|segments| - 1][|segments[|segments| - 1]| - 1])
            && (segments[|segments| - 1] == "" && |segments| > 1 ==> text != [] && text[|text| - 1] == '/')
  {
    if |segments| > 1 {
      JoinEnds(segments[1..]);
    }
  }

  /** Such segments are the segments of a path. */
  lemma SegmentsOfJoin(segments: seq<string>)
    requires PathLike(segments)
    ensures Segments(Join(segments, "/")) == segments
  {
    JoinEnds(segments);
    TrimmedIsFixed(Join(segments, "/"), IsSlash);
    forall i | 0 <= i < |segments| ensures Absent(segments[i], "/") && Delimits(segments[i], "/") {
      DelimitsByStart(segments[i], "/");
    }
    JoinThenSplit(segments, "/");
  }

  lemma SegmentsArePathLike(text: string)
    ensures PathLike(Segments(text))
  {
    var trimmed, segments := Trim(text, IsSlash), Segments(text);
    SplitThenJoin(trimmed, "/");
    forall i | 0 <= i < |segments| ensures '/' !in segments[i] {
      forall k | 0 <= k < |segments[i]| ensures segments[i][k] != '/' {
        assert !OccursAt(segments[i], "/", k);
        assert segments[i][k..k + 1] == [segments[i][k]];
      }
    }
    TrimmedEnds(text, IsSlash);
    JoinEnds(segments);
  }

  /** A path that both templates can match: parameters meet a segment no route spells out. */
  function Common(a: seq<string>, b: seq<string>, fresh': string): seq<string>
    requires |a| == |b|
  {
    seq(|a|, i requires 0 <= i < |a| =>
      if !IsParameter(a[i]) then a[i] else if !IsParameter(b[i]) then b[i] else fresh')
  }

  lemma CommonIsPathLike(a: seq<string>, b: seq<string>, fresh': string)
    requires |a| == |b| && PathLike(a) && PathLike(b) && fresh' != "" && '/' !in fresh'
    ensures PathLike(Common(a, b, fresh'))
  {
  }

  /** Where both templates fit a path, each fits the common one. */
  lemma FitsCommon(a: seq<string>, b: seq<string>, path: seq<string>, fresh': string, decode: Decoder)
    requires Fits(a, path, decode) && Fits(b, path, decode) && decode(fresh').Some?
    ensures Fits(a, Common(a, b, fresh'), decode) && Fits(b, Common(a, b, fresh'), decode)
  {
    var common := Common(a, b, fresh');
    forall i | 0 <= i < |common|
      ensures if IsParameter(a[i]) then decode(common[i]).Some? else a[i] == common[i]
      ensures if IsParameter(b[i]) then decode(common[i]).Some? else b[i] == common[i]
    {
    }
  }

  /** And what fits the common path fits every path that both fit. */
  lemma CommonFits(a: seq<string>, b: seq<string>, c: seq<string>, path: seq<string>, fresh': string, decode: Decoder)
    requires Fits(a, path, decode) && Fits(b, path, decode) && fresh' !in c
    requires Fits(c, Common(a, b, fresh'), decode)
    ensures Fits(c, path, decode)
  {
    var common := Common(a, b, fresh');
    forall i | 0 <= i < |c|
      ensures if IsParameter(c[i]) then decode(path[i]).Some? else c[i] == path[i]
    {
      assert c[i] in c;
      assert if IsParameter(c[i]) then decode(common[i]).Some? else c[i] == common[i];
    }
  }

  lemma MovedToFront(routes: seq<Route>, r: Route) returns (p: seq<Route>)
    requires r in routes
    ensures p != [] && p[0] == r && multiset(p) == multiset(routes)
  {
    var i :| 0 <= i < |routes| && routes[i] == r;
    p := [r] + routes[..i] + routes[i + 1..];
    assert routes == routes[..i] + [r] + routes[i + 1..];
  }

  /** A route that matches and that no matching route outranks is chosen when it comes first. */
  lemma FrontIsChosen(routes: seq<Route>, p: seq<Route>, method': string, path: string, decode: Decoder)
    requires p != [] && multiset(p) == multiset(routes) && Matches(p[0], method', path, decode)
    requires forall r :: r in routes && Matches(r, method', path, decode) ==> !Greater(Weight(r), Weight(p[0]))
    ensures IsChoice(p, method', path, decode, 0)
  {
    forall j | 0 <= j < |p| ensures p[j] in routes {
      InBoth(p, routes, j);
    }
  }

  /** A segment that no route spells out. */
  function Unused(routes: seq<Route>): string {
    Xs(TotalLength(routes) + 1)
  }

  lemma UnusedIsFresh(routes: seq<Route>, r: Route)
    requires r in routes
    ensures Unused(routes) !in Segments(r.template)
  {
    forall i | 0 <= i < |Segments(r.template)| ensures Segments(r.template)[i] != Unused(routes) {
      SegmentsAreShort(r.template, i);
      TotalLengthBounds(routes, r);
    }
  }

  /** Two different routes of the method that both match, and that nothing outranks, on their common path. */
  ghost predicate Contend(routes: seq<Route>, method': string, decode: Decoder, r: Route, q: Route) {
    && r in routes && q in routes && r.method' == method' && q.method' == method' && r != q
    && Ties(Segments(r.template), Segments(q.template))
    && var common := Common(Segments(r.template), Segments(q.template), Unused(routes));
       && Fits(Segments(r.template), common, decode) && Fits(Segments(q.template), common, decode)
       && forall s :: s in routes && s.method' == method' && Fits(Segments(s.template), common, decode) ==>
            !Greater(Weight(s), Weight(r))
  }

  lemma ContentionDependsOnOrder(routes: seq<Route>, method': string, decode: Decoder, r: Route, q: Route)
    requires Contend(routes, method', decode, r, q)
    ensures !OrderIndependent(routes, method', decode)
  {
    var a, b := Segments(r.template), Segments(q.template);
    var common := Common(a, b, Unused(routes));
    var path := Join(common, "/");
    CommonPath(r.template, q.template, Unused(routes));
    MatchesMeansFits(r, method', path, decode);
    MatchesMeansFits(q, method', path, decode);
    TiesWeighEqual(a, b);
    forall s | s in routes && Matches(s, method', path, decode) ensures !Greater(Weight(s), Weight(r)) {
      MatchesMeansFits(s, method', path, decode);
    }
    var p := MovedToFront(routes, r);
    var p' := MovedToFront(routes, q);
    FrontIsChosen(routes, p, method', path, decode);
    FrontIsChosen(routes, p', method', path, decode);
    assert p[0] != p'[0];
  }

  lemma CommonPath(a: string, b: string, fresh': string)
    requires |Segments(a)| == |Segments(b)| && fresh' != "" && '/' !in fresh'
    ensures var common := Common(Segments(a), Segments(b), fresh'); Segments(Join(common, "/")) == common
  {
    SegmentsArePathLike(a);
    SegmentsArePathLike(b);
    CommonIsPathLike(Segments(a), Segments(b), fresh');
    SegmentsOfJoin(Common(Segments(a), Segments(b), fresh'));
  }

  /** Routes that two orders choose for one path contend. */
  lemma DifferentChoicesContend(routes: seq<Route>, p: seq<Route>, q: seq<Route>, method': string, path: string,
                                decode: Decoder, i: nat, j: nat)
    requires DecodesLetters(decode)
    requires multiset(p) == multiset(routes) && multiset(q) == multiset(routes)
    requires IsChoice(p, method', path, decode, i) && IsChoice(q, method', path, decode, j) && p[i] != q[j]
    ensures Contend(routes, method', decode, p[i], q[j])
  {
    var r, fresh' := p[i], Unused(routes);
    var a, b, steps := Segments(p[i].template), Segments(q[j].template), Segments(path);
    InBoth(p, routes, i);
    InBoth(q, routes, j);
    ChoicesWeighEqual(p, q, method', path, decode, i, j);
    EqualWeightTies(a, b, steps, decode);
    FitsCommon(a, b, steps, fresh', decode);
    forall s | s in routes && s.method' == method' && Fits(Segments(s.template), Common(a, b, fresh'), decode)
      ensures !Greater(Weight(s), Weight(r))
    {
      UnusedIsFresh(routes, s);
      CommonFits(a, b, Segments(s.template), steps, fresh', decode);
      MatchesMeansFits(s, method', path, decode);
      assert s in multiset(p);
    }
  }

  /**
   * The choice does not depend on the order of the manifest, for any path, if and only if
   * no two routes contend: one computed path for each pair of routes decides.
   */
  lemma OrderIndependentIffNoneContend(routes: seq<Route>, method': string, decode: Decoder)
    requires DecodesLetters(decode)
    ensures OrderIndependent(routes, method', decode) <==> forall r, q :: !Contend(routes, method', decode, r, q)
  {
    if r, q :| Contend(routes, method', decode, r, q) {
      ContentionDependsOnOrder(routes, method', decode, r, q);
    } else {
      forall p: seq<Route>, q: seq<Route>, path, i: nat, j: nat |
        && multiset(p) == multiset(routes) && multiset(q) == multiset(routes)
        && IsChoice(p, method', path, decode, i) && IsChoice(q, method', path, decode, j)
        ensures p[i] == q[j]
      {
        if p[i] != q[j] {
          DifferentChoicesContend(routes, p, q, method', path, decode, i, j);
        }
      }
    }
  }

  /** Whatever fits the common path of two routes is named wherever they are. */
  lemma CommonIsMostSpecific(a: seq<string>, b: seq<string>, c: seq<string>, fresh': string, decode: Decoder)
    requires Ties(a, b) && Fits(c, Common(a, b, fresh'), decode) && fresh' !in c && "{}" !in c
    ensures !Greater(Specificity(c), Specificity(a))
  {
    forall i | 0 <= i < |c| ensures Specificity(c)[i] ==> Specificity(a)[i] {
      BareBraces(c[i]);
      assert c[i] in c && SegmentsTie(a[i], b[i]);
    }
    PointwiseNotGreater(Specificity(c), Specificity(a));
  }

  lemma TiesFitCommon(a: seq<string>, b: seq<string>, fresh': string, decode: Decoder)
    requires Ties(a, b) && "{}" !in a && "{}" !in b && decode(fresh').Some?
    ensures Fits(a, Common(a, b, fresh'), decode) && Fits(b, Common(a, b, fresh'), decode)
  {
    var common := Common(a, b, fresh');
    forall i | 0 <= i < |common|
      ensures if IsParameter(a[i]) then decode(common[i]).Some? else a[i] == common[i]
      ensures if IsParameter(b[i]) then decode(common[i]).Some? else b[i] == common[i]
    {
      assert a[i] in a && b[i] in b && SegmentsTie(a[i], b[i]);
    }
  }

  /** Without `{}` segments every tie is a contention. */
  lemma TiesContend(routes: seq<Route>, method': string, decode: Decoder, r: Route, q: Route)
    requires NoBareBraces(routes) && DecodesLetters(decode)
    requires r in routes && q in routes && r.method' == q.method' == method' && r != q
    requires Ties(Segments(r.template), Segments(q.template))
    ensures Contend(routes, method', decode, r, q)
  {
    var a, b := Segments(r.template), Segments(q.template);
    TiesFitCommon(a, b, Unused(routes), decode);
    forall s | s in routes && s.method' == method' && Fits(Segments(s.template), Common(a, b, Unused(routes)), decode)
      ensures !Greater(Weight(s), Weight(r))
    {
      UnusedIsFresh(routes, s);
      CommonIsMostSpecific(a, b, Segments(s.template), Unused(routes), decode);
    }
  }

  /**
   * Without `{}` segments, the choice does not depend on the order of the manifest
   * exactly when no two different routes of the method share a shape. (With them, a
   * third route can outrank two that tie, wherever both match.)
   */
  lemma OrderIndependentIffUnambiguous(routes: seq<Route>, method': string, decode: Decoder)
    requires NoBareBraces(routes) && DecodesLetters(decode)
    ensures OrderIndependent(routes, method', decode) <==> Unambiguous(routes, method')
  {
    forall r, q | r in routes && q in routes
      ensures Ties(Segments(r.template), Segments(q.template))
              <==> SameShape(Segments(r.template), Segments(q.template))
    {
      TiesWithoutBraces(Segments(r.template), Segments(q.template));
    }
    if Unambiguous(routes, method') {
      UntiedIsOrderIndependent(routes, method', decode);
    } else {
      var r, q :| r in routes && q in routes && r.method' == method' && q.method' == method' && r != q
                  && SameShape(Segments(r.template), Segments(q.template));
      TiesContend(routes, method', decode, r, q);
      ContentionDependsOnOrder(routes, method', decode, r, q);
    }
  }

  /** With a `{}` segment two routes of different shapes tie: it matches anything but weighs as a literal. */
  lemma BareBracesTie(decode: Decoder)
    requires decode("a").Some?
    ensures var r, q := Route("GET", "{}", "1"), Route("GET", "a", "2");
            && IsChoice([r, q], "GET", "a", decode, 0) && IsChoice([q, r], "GET", "a", decode, 0)
            && !SameShape(Segments(r.template), Segments(q.template))
  {
    var r, q := Route("GET", "{}", "1"), Route("GET", "a", "2");
    SingleSegment("{}");
    SingleSegment("a");
    MatchesMeansFits(r, "GET", "a", decode);
    MatchesMeansFits(q, "GET", "a", decode);
    assert Weight(r) == [true] && Weight(q) == [true];
    GreaterIsTotal([true], [true]);
  }

  /** Routes do not contend where a third one fits their common path and outranks them. */
  lemma OutrankedDoNotContend(routes: seq<Route>, method': string, decode: Decoder, r: Route, q: Route, s: Route)
    requires s in routes && s.method' == method' && |Segments(r.template)| == |Segments(q.template)|
    requires Fits(Segments(s.template), Common(Segments(r.template), Segments(q.template), Unused(routes)), decode)
    requires Greater(Weight(s), Weight(r))
    ensures !Contend(routes, method', decode, r, q)
  {
  }

  lemma UnequalDoNotContend(routes: seq<Route>, method': string, decode: Decoder, r: Route, q: Route)
    requires Weight(r) != Weight(q)
    ensures !Contend(routes, method', decode, r, q)
  {
    if Ties(Segments(r.template), Segments(q.template)) {
      TiesWeighEqual(Segments(r.template), Segments(q.template));
    }
  }

  /** In a manifest of single parameters, a lone `{}` outranks the others wherever they match. */
  lemma LoneBraces(routes: seq<Route>, s: Route, decode: Decoder, a: Route, b: Route)
    requires DecodesLetters(decode) && s in routes && Segments(s.template) == ["{}"]
    requires forall r :: r in routes && r != s ==> |Segments(r.template)| == 1 && IsNamed(Segments(r.template)[0])
    ensures !Contend(routes, s.method', decode, a, b)
  {
    if a in routes && b in routes && a != b {
      assert Weight(s) == [true];
      if a == s || b == s {
        assert Weight(a) != Weight(b) by {
          assert Weight(if a == s then b else a)[0] == false;
        }
        UnequalDoNotContend(routes, s.method', decode, a, b);
      } else {
        assert Weight(a) == [false];
        OutrankedDoNotContend(routes, s.method', decode, a, b, s);
      }
    }
  }

  /** So ties that a third route outranks wherever both match do no harm. */
  lemma OutrankedTiesAreHarmless(routes: seq<Route>, s: Route, decode: Decoder)
    requires DecodesLetters(decode) && s in routes && Segments(s.template) == ["{}"]
    requires forall r :: r in routes && r != s ==> |Segments(r.template)| == 1 && IsNamed(Segments(r.template)[0])
    ensures forall r, q :: r in routes && q in routes && r != s && q != s ==>
      Ties(Segments(r.template), Segments(q.template))
    ensures OrderIndependent(routes, s.method', decode)
  {
    forall a, b
      ensures !Contend(routes, s.method', decode, a, b)
    {
      LoneBraces(routes, s, decode, a, b);
    }
    OrderIndependentIffNoneContend(routes, s.method', decode);
  }

  lemma SingleSegment(text: string)
    requires text != [] && '/' !in text
    ensures Segments(text) == [text]
  {
    assert Join([text], "/") == text;
    SegmentsOfJoin([text]);
  }
}
