/**
 * The pure helpers of the REST API construct: path segmentation, path parameters,
 * deterministic artifact names, the integration resolver and the authorizer
 * precedence, together with the registrations one route produces. The CDK sinks
 * (`addProxy`, `addCorsPreflight`, `addMethod`, `addModel`) are replaced by
 * descriptor records; the resource tree and the loops that grow it live in the
 * modules ResourceTree and RestApiAssembly.
 */
module RestApi {
  import opened Wrappers
  import opened Text
  import Validation

  // ---------------------------------------------------------------------------
  // Paths.
  // ---------------------------------------------------------------------------

  /** `map(segment => String(segment).trim())`. */
  function TrimEach(xs: seq<string>): (r: seq<string>)
    ensures |r| == |xs|
    ensures forall i | 0 <= i < |xs| :: r[i] == Trim(xs[i])
  {
    if |xs| == 0 then [] else [Trim(xs[0])] + TrimEach(xs[1..])
  }

  lemma TrimWithin(s: string, c: char)
    requires c in Trim(s)
    ensures c in s
  {
    var t := TrimStart(s);
    var r := TrimEnd(t);
    assert r == t[..|r|];
    SliceHolds(t, 0, |r|, c);
    assert t == s[|s| - |t|..];
    SliceHolds(s, |s| - |t|, |s|, c);
  }

  /** A segment as the path builder expects it: non-empty, no `/`, no surrounding whitespace. */
  predicate IsSegment(s: string)
  {
    s != "" && '/' !in s && !IsJsWhitespace(s[0]) && !IsJsWhitespace(s[|s| - 1])
  }

  lemma TrimmedPiece(p: string)
    requires '/' !in p && Trim(p) != ""
    ensures IsSegment(Trim(p))
  {
    var t := TrimStart(p);
    var r := Trim(p);
    if '/' in r {
      TrimWithin(p, '/');
    }
    assert r == t[..|r|];
    assert r[0] == t[0];
  }

  /** `getPathSegmentsFromFullPath`: the `/`-separated pieces, trimmed, empty ones dropped. */
  function PathSegments(fullPath: string): (r: seq<string>)
    ensures forall i | 0 <= i < |r| :: IsSegment(r[i])
  {
    var pieces := Split(fullPath, '/');
    var trimmed := TrimEach(pieces);
    var r := DropEmpty(trimmed);
    forall i | 0 <= i < |r| ensures IsSegment(r[i]) {
      var j :| 0 <= j < |trimmed| && trimmed[j] == r[i];
      TrimmedPiece(pieces[j]);
    }
    r
  }

  lemma {:induction false} TrimSegment(s: string)
    requires IsSegment(s)
    ensures Trim(s) == s
  {
  }

  lemma {:induction false} DropEmptyKeeps(xs: seq<string>)
    requires forall i | 0 <= i < |xs| :: xs[i] != ""
    ensures DropEmpty(xs) == xs
  {
    if |xs| > 0 {
      DropEmptyKeeps(xs[1..]);
      assert [xs[0]] + xs[1..] == xs;
    }
  }

  lemma TrimEachFixed(xs: seq<string>)
    requires forall i | 0 <= i < |xs| :: Trim(xs[i]) == xs[i]
    ensures TrimEach(xs) == xs
  {
    var t := TrimEach(xs);
    assert forall i | 0 <= i < |xs| :: t[i] == xs[i];
  }

  lemma TrimEachSegments(segs: seq<string>)
    requires forall i | 0 <= i < |segs| :: IsSegment(segs[i])
    ensures TrimEach(segs) == segs
  {
    forall i | 0 <= i < |segs| ensures Trim(segs[i]) == segs[i] {
      TrimSegment(segs[i]);
    }
    TrimEachFixed(segs);
  }

  lemma SplitSegments(segs: seq<string>)
    requires |segs| >= 1
    requires forall i | 0 <= i < |segs| :: '/' !in segs[i]
    ensures Split(Join(segs, "/"), '/') == segs
    ensures Split("/" + Join(segs, "/"), '/') == [""] + segs
  {
    var joined := Join(segs, "/");
    SplitJoin(segs, '/');
    SplitAfterPiece("", joined, '/');
    assert "" + ['/'] + joined == "/" + joined;
  }

  lemma PathSegmentsOfPieces(fullPath: string, pieces: seq<string>)
    requires Split(fullPath, '/') == pieces
    ensures PathSegments(fullPath) == DropEmpty(TrimEach(pieces))
  {
  }

  lemma SegmentsHaveNoSlash(segs: seq<string>)
    requires forall i | 0 <= i < |segs| :: IsSegment(segs[i])
    ensures forall i | 0 <= i < |segs| :: '/' !in segs[i]
  {
    forall i | 0 <= i < |segs| ensures '/' !in segs[i] {
      assert IsSegment(segs[i]);
    }
  }

  lemma PathSegmentsOfEmpty()
    ensures PathSegments("") == []
  {
    var p := Split("", '/');
    assert p == [""];
    var t := TrimEach(p);
    assert t == [""];
    assert DropEmpty(t) == [];
  }

  lemma PathSegmentsOfSlash()
    ensures PathSegments("/") == []
  {
    var p := Split("/", '/');
    assert p == ["", ""] by {
      SplitAfterPiece("", "", '/');
      assert "" + ['/'] + "" == "/";
    }
    var t := TrimEach(p);
    assert t == ["", ""];
    assert DropEmpty(t) == [];
  }

  /** Segments joined with `/` split back into the same segments. */
  lemma PathSegmentsOfJoin(segs: seq<string>)
    requires forall i | 0 <= i < |segs| :: IsSegment(segs[i])
    ensures PathSegments(Join(segs, "/")) == segs
  {
    if |segs| == 0 {
      PathSegmentsOfEmpty();
    } else {
      SegmentsHaveNoSlash(segs);
      SplitSegments(segs);
      TrimEachSegments(segs);
      DropEmptyKeeps(segs);
      PathSegmentsOfPieces(Join(segs, "/"), segs);
    }
  }

  /** The same with the leading `/` routes are written with. */
  lemma PathSegmentsOfRoute(segs: seq<string>)
    requires forall i | 0 <= i < |segs| :: IsSegment(segs[i])
    ensures PathSegments("/" + Join(segs, "/")) == segs
  {
    if |segs| == 0 {
      PathSegmentsOfSlash();
      assert "/" + Join(segs, "/") == "/";
    } else {
      SegmentsHaveNoSlash(segs);
      SplitSegments(segs);
      TrimEachSegments(segs);
      DropEmptyKeeps(segs);
      var padded := [""] + segs;
      assert padded[1..] == segs;
      assert TrimEach(padded) == padded;
      assert DropEmpty(padded) == segs;
      PathSegmentsOfPieces("/" + Join(segs, "/"), padded);
    }
  }

  lemma SplitDoubledSlashes(a: string, b: string)
    requires '/' !in a && '/' !in b
    ensures Split("/" + a + "//" + b + "/", '/') == ["", a, "", b, ""]
  {
    var s3 := b + "/" + "";
    var s2 := "" + "/" + s3;
    var s1 := a + "/" + s2;
    var s0 := "" + "/" + s1;
    SlashesRegroup(a, b);
    SplitSlashAfter(b, "");
    SplitSlashAfter("", s3);
    SplitSlashAfter(a, s2);
    SplitSlashAfter("", s1);
    var last := Split("", '/');
    assert last == [""];
    calc {
      Split(s0, '/');
      [""] + ([a] + ([""] + ([b] + last)));
      ["", a, "", b, ""];
    }
  }

  lemma SlashesRegroup(a: string, b: string)
    ensures "/" + a + "//" + b + "/" == "" + "/" + (a + "/" + ("" + "/" + (b + "/" + "")))
  {
  }

  lemma SplitSlashAfter(x: string, y: string)
    requires '/' !in x
    ensures Split(x + "/" + y, '/') == [x] + Split(y, '/')
  {
    SplitAfterPiece(x, y, '/');
  }

  lemma DropEmptyGaps(a: string, b: string)
    requires a != "" && b != ""
    ensures DropEmpty(["", a, "", b, ""]) == [a, b]
  {
    var p4: seq<string> := [""];
    var p3 := [b] + p4;
    var p2 := [""] + p3;
    var p1 := [a] + p2;
    DropEmptyCons("", []);
    assert p4 == [""] + [];
    DropEmptyCons(b, p4);
    DropEmptyCons("", p3);
    DropEmptyCons(a, p2);
    DropEmptyCons("", p1);
    assert [""] + p1 == ["", a, "", b, ""];
  }

  /** Doubled and trailing slashes leave no empty segment: `/a//b/` gives `[a, b]`. */
  lemma PathSegmentsSkipEmpty(a: string, b: string)
    requires IsSegment(a) && IsSegment(b)
    ensures PathSegments("/" + a + "//" + b + "/") == [a, b]
  {
    var pieces := ["", a, "", b, ""];
    SplitDoubledSlashes(a, b);
    TrimSegment(a);
    TrimSegment(b);
    assert Trim("") == "";
    TrimEachFixed(pieces);
    DropEmptyGaps(a, b);
    PathSegmentsOfPieces("/" + a + "//" + b + "/", pieces);
  }

  /** `ensurePathIdentifier`: at most one leading `/` removed. */
  function EnsurePathIdentifier(path: string): (r: string)
    ensures |r| <= |path| && |path| - |r| <= 1 && r == path[|path| - |r|..]
    ensures |r| < |path| <==> StartsWith(path, "/")
  {
    if StartsWith(path, "/") then path[1..] else path
  }

  lemma SegmentIsIdentifier(s: string)
    requires IsSegment(s)
    ensures EnsurePathIdentifier(s) == s
  {
    assert s[0] in s;
    assert s[..1] != "/";
  }

  /** Segments produced by `getPathSegmentsFromFullPath` are left alone by `ensurePathIdentifier`. */
  lemma PathSegmentsAreIdentifiers(fullPath: string)
    ensures forall s | s in PathSegments(fullPath) :: EnsurePathIdentifier(s) == s
  {
    var r := PathSegments(fullPath);
    forall s | s in r ensures EnsurePathIdentifier(s) == s {
      SegmentIsIdentifier(s);
    }
  }

  predicate IsBraced(segment: string)
  {
    StartsWith(segment, "{") && EndsWith(segment, "}")
  }

  /** `segment.slice(1, -1)` of a braced segment. */
  function Unbrace(segment: string): (r: string)
    requires IsBraced(segment)
    ensures "{" + r + "}" == segment
  {
    assert segment[0] == segment[..1][0] == '{';
    assert segment[|segment| - 1] == segment[|segment| - 1..][0] == '}';
    segment[1..|segment| - 1]
  }

  /** The path-parameter names: the braced segments with their braces removed, in path order. */
  function PathParams(segments: seq<string>): (r: seq<string>)
    ensures |r| <= |segments|
    ensures forall i | 0 <= i < |r| :: "{" + r[i] + "}" in segments
  {
    if |segments| == 0 then []
    else
      var s := segments[0];
      var rest := PathParams(segments[1..]);
      assert forall i | 0 <= i < |rest| :: "{" + rest[i] + "}" in segments by {
        forall i | 0 <= i < |rest| ensures "{" + rest[i] + "}" in segments {
          var k :| 0 <= k < |segments[1..]| && segments[1..][k] == "{" + rest[i] + "}";
          assert segments[k + 1] == "{" + rest[i] + "}";
        }
      }
      if IsBraced(s) then [Unbrace(s)] + rest else rest
  }

  /** Appending a segment appends its name exactly when it is braced. */
  lemma {:induction false} PathParamsSnoc(segments: seq<string>, s: string)
    ensures PathParams(segments + [s]) ==
      PathParams(segments) + (if IsBraced(s) then [Unbrace(s)] else [])
  {
    if |segments| == 0 {
      assert PathParams([s][1..]) == [];
    } else {
      assert (segments + [s])[1..] == segments[1..] + [s];
      PathParamsSnoc(segments[1..], s);
    }
  }

  /** A name is a path parameter exactly when its braced form is one of the segments. */
  lemma {:induction false} PathParamsExactly(segments: seq<string>, p: string)
    ensures p in PathParams(segments) <==> "{" + p + "}" in segments
  {
    if |segments| > 0 {
      PathParamsExactly(segments[1..], p);
      var s := segments[0];
      var b := "{" + p + "}";
      assert segments == [s] + segments[1..];
      if s == b {
        assert b[..1] == "{" && b[|b| - 1..] == "}";
        assert Unbrace(b) == p by {
          assert "{" + Unbrace(b) + "}" == "{" + p + "}";
          assert ("{" + Unbrace(b) + "}")[1..|b| - 1] == Unbrace(b);
        }
      }
    }
  }

  // ---------------------------------------------------------------------------
  // Artifact names.
  // ---------------------------------------------------------------------------

  /** `toPascalCase`; the source reads `str[0]`, so it is only defined on a non-empty string. */
  function ToPascalCase(str: string): (r: string)
    requires |str| > 0
    ensures |r| == |str| && LowerAll(r) == LowerAll(str)
    ensures ('a' <= str[0] <= 'z' || 'A' <= str[0] <= 'Z') ==> 'A' <= r[0] <= 'Z'
    ensures forall i | 1 <= i < |r| :: !('A' <= r[i] <= 'Z')
    ensures (forall i | 0 <= i < |str| :: IsAsciiAlphanumeric(str[i])) ==>
      forall i | 0 <= i < |r| :: IsAsciiAlphanumeric(r[i])
  {
    PascalCaseLowered(str);
    [AsciiUpper(str[0])] + LowerAll(str[1..])
  }

  /** Upper-casing the head and lower-casing the tail agree with the word once lower-cased. */
  lemma PascalCaseLowered(str: string)
    requires |str| > 0
    ensures LowerAll([AsciiUpper(str[0])] + LowerAll(str[1..])) == LowerAll(str)
  {
    var x := [AsciiUpper(str[0])] + LowerAll(str[1..]);
    forall i | 0 <= i < |str| ensures LowerAll(x)[i] == LowerAll(str)[i] {
      if i == 0 {
        LowerOfUpper(str[0]);
      } else {
        assert x[i] == AsciiLower(str[i]);
      }
    }
  }

  /** `.replace(/[^a-zA-Z0-9]/g, "-")`. */
  function ReplaceNonAlphanumeric(s: string): (r: string)
    ensures |r| == |s|
    ensures forall i | 0 <= i < |s| :: r[i] == if IsAsciiAlphanumeric(s[i]) then s[i] else '-'
  {
    if |s| == 0 then ""
    else [if IsAsciiAlphanumeric(s[0]) then s[0] else '-'] + ReplaceNonAlphanumeric(s[1..])
  }

  /** `.map(toPascalCase)` over non-empty words. */
  function PascalEach(words: seq<string>): (r: seq<string>)
    requires forall i | 0 <= i < |words| :: words[i] != ""
    ensures |r| == |words|
    ensures forall i | 0 <= i < |words| :: r[i] == ToPascalCase(words[i])
  {
    if |words| == 0 then [] else [ToPascalCase(words[0])] + PascalEach(words[1..])
  }

  /** `stringToAlphanumericName`. */
  function StringToAlphanumericName(path: string): (r: string)
    ensures r == CapitaliseRuns(path, true)
  {
    var replaced := ReplaceNonAlphanumeric(path);
    var pieces := Split(replaced, '-');
    forall i | 0 <= i < |pieces| ensures AllAlphanumeric(pieces[i]) {
      forall k | 0 <= k < |pieces[i]| ensures IsAsciiAlphanumeric(pieces[i][k]) {
        JoinHoldsParts(pieces, "-", i, pieces[i][k]);
      }
    }
    var words := DropEmpty(pieces);
    PiecesCapitalise(pieces);
    CapitaliseReplaced(path, true);
    Concat(PascalEach(words))
  }

  predicate AllAlphanumeric(s: string)
  {
    forall i | 0 <= i < |s| :: IsAsciiAlphanumeric(s[i])
  }

  /**
   * Reference definition of `stringToAlphanumericName`, one character at a time:
   * non-alphanumerics are dropped, and each maximal run of alphanumerics keeps only its
   * first character upper-cased.
   */
  function CapitaliseRuns(s: string, atRunStart: bool): (r: string)
  {
    if |s| == 0 then ""
    else if IsAsciiAlphanumeric(s[0]) then
      [if atRunStart then AsciiUpper(s[0]) else AsciiLower(s[0])] + CapitaliseRuns(s[1..], false)
    else CapitaliseRuns(s[1..], true)
  }

  /** The produced name holds only `[A-Za-z0-9]`, as many as the input has, equal up to case. */
  lemma {:induction false} CapitaliseRunsContent(s: string, atRunStart: bool)
    ensures AllAlphanumeric(CapitaliseRuns(s, atRunStart))
    ensures |CapitaliseRuns(s, atRunStart)| == |AlphanumericsOf(s)|
    ensures LowerAll(CapitaliseRuns(s, atRunStart)) == LowerAll(AlphanumericsOf(s))
  {
    if |s| > 0 {
      CapitaliseRunsContent(s[1..], !IsAsciiAlphanumeric(s[0]));
      var rest := CapitaliseRuns(s[1..], !IsAsciiAlphanumeric(s[0]));
      if IsAsciiAlphanumeric(s[0]) {
        var c := if atRunStart then AsciiUpper(s[0]) else AsciiLower(s[0]);
        LowerAllAppend([c], rest);
        LowerAllAppend([s[0]], AlphanumericsOf(s[1..]));
      }
    }
  }

  lemma {:induction false} CapitaliseReplaced(s: string, b: bool)
    ensures CapitaliseRuns(ReplaceNonAlphanumeric(s), b) == CapitaliseRuns(s, b)
  {
    if |s| > 0 {
      CapitaliseReplaced(s[1..], !IsAsciiAlphanumeric(s[0]));
      assert ReplaceNonAlphanumeric(s)[1..] == ReplaceNonAlphanumeric(s[1..]);
    }
  }

  lemma {:induction false} CapitaliseWord(w: string, b: bool)
    requires AllAlphanumeric(w)
    ensures CapitaliseRuns(w, b) == if w == "" then "" else if b then ToPascalCase(w) else LowerAll(w)
  {
    if |w| > 0 {
      CapitaliseWord(w[1..], false);
      assert AllAlphanumeric(w[1..]);
    }
  }

  lemma {:induction false} CapitaliseAfterWord(w: string, y: string, b: bool)
    requires AllAlphanumeric(w)
    ensures CapitaliseRuns(w + "-" + y, b) == CapitaliseRuns(w, b) + CapitaliseRuns(y, true)
  {
    if |w| == 0 {
      assert w + "-" + y == "-" + y;
      assert ("-" + y)[1..] == y;
    } else {
      assert (w + "-" + y)[1..] == w[1..] + "-" + y;
      assert AllAlphanumeric(w[1..]);
      CapitaliseAfterWord(w[1..], y, false);
    }
  }

  /** The split-filter-map-join pipeline agrees with the reference on `-`-joined words. */
  lemma {:induction false} PiecesCapitalise(pieces: seq<string>)
    requires |pieces| >= 1
    requires forall i | 0 <= i < |pieces| :: AllAlphanumeric(pieces[i])
    ensures Concat(PascalEach(DropEmpty(pieces))) == CapitaliseRuns(Join(pieces, "-"), true)
  {
    var p := pieces[0];
    CapitaliseWord(p, true);
    var head := if p == "" then [] else [p];
    assert DropEmpty(pieces) == head + DropEmpty(pieces[1..]);
    if |pieces| == 1 {
      assert DropEmpty(pieces[1..]) == [];
    } else {
      PiecesCapitalise(pieces[1..]);
      CapitaliseAfterWord(p, Join(pieces[1..], "-"), true);
      PascalConcatCons(head, DropEmpty(pieces[1..]));
    }
  }

  lemma {:induction false} PascalConcatCons(head: seq<string>, rest: seq<string>)
    requires |head| <= 1
    requires forall i | 0 <= i < |head| :: head[i] != ""
    requires forall i | 0 <= i < |rest| :: rest[i] != ""
    ensures Concat(PascalEach(head + rest)) ==
      (if head == [] then "" else ToPascalCase(head[0])) + Concat(PascalEach(rest))
  {
    if head == [] {
      assert head + rest == rest;
    } else {
      assert (head + rest)[1..] == rest;
    }
  }

  lemma ConcatThree(a: string, b: string, c: string)
    ensures Concat([a, b, c]) == a + b + c
  {
    assert [a, b, c][1..] == [b, c];
    assert [b, c][1..] == [c];
    assert Concat([c]) == c + Concat([]) == c;
    assert a + (b + c) == a + b + c;
  }

  /** `parts.map(stringToAlphanumericName)`. */
  function AlphanumericNames(parts: seq<string>): (r: seq<string>)
    ensures |r| == |parts|
    ensures forall i {:trigger r[i]} | 0 <= i < |r| :: r[i] == StringToAlphanumericName(parts[i])
  {
    if |parts| == 0 then [] else [StringToAlphanumericName(parts[0])] + AlphanumericNames(parts[1..])
  }

  /** `buildNamespacedNameCreator({path, httpMethod})(name)`. */
  function NamespacedName(httpMethod: string, path: string, name: string): string
  {
    Concat(AlphanumericNames([httpMethod, path, name]))
  }

  /** An artifact name is the three parts, each with its runs capitalised and joined. */
  lemma NamespacedNameRuns(httpMethod: string, path: string, name: string)
    ensures NamespacedName(httpMethod, path, name)
         == CapitaliseRuns(httpMethod, true) + CapitaliseRuns(path, true) + CapitaliseRuns(name, true)
  {
    var names := AlphanumericNames([httpMethod, path, name]);
    assert names == [names[0], names[1], names[2]];
    ConcatThree(names[0], names[1], names[2]);
  }

  /** Every artifact name holds only ASCII letters and digits: those of its three parts, up to case. */
  lemma NamespacedNameContent(httpMethod: string, path: string, name: string)
    ensures AllAlphanumeric(NamespacedName(httpMethod, path, name))
    ensures LowerAll(NamespacedName(httpMethod, path, name)) == LowerAll(AlphanumericsOf(httpMethod + path + name))
  {
    NamespacedNameRuns(httpMethod, path, name);
    CapitaliseRunsContent(httpMethod, true);
    CapitaliseRunsContent(path, true);
    CapitaliseRunsContent(name, true);
    var a, b, c := CapitaliseRuns(httpMethod, true), CapitaliseRuns(path, true), CapitaliseRuns(name, true);
    LowerAllAppend(a + b, c);
    LowerAllAppend(a, b);
    AlphanumericsOfAppend(httpMethod + path, name);
    AlphanumericsOfAppend(httpMethod, path);
    LowerAllAppend(AlphanumericsOf(httpMethod) + AlphanumericsOf(path), AlphanumericsOf(name));
    LowerAllAppend(AlphanumericsOf(httpMethod), AlphanumericsOf(path));
  }

  // ---------------------------------------------------------------------------
  // Resource definitions (lib/types.ts) and the integration resolver.
  // ---------------------------------------------------------------------------

  // Handles on objects of the CDK library; the model never looks inside them.
  datatype IntegrationRef = IntegrationRef(id: nat)
  datatype FunctionRef = FunctionRef(id: nat)
  datatype AuthorizerRef = AuthorizerRef(id: nat)
  datatype CorsRef = CorsRef(id: nat)

  /** The `auth` of a definition: `false`, or an authorizer. */
  datatype AuthParam = AuthDisabled | UseAuthorizer(authorizer: AuthorizerRef)

  /**
   * A request template: text a definition supplies, or the JSON envelope the resolver
   * builds (kept as a record; its `JSON.stringify` text is not modelled).
   */
  datatype RequestTemplate =
    | TemplateText(text: string)
    | Envelope(params: map<string, string>, query: map<string, string>, body: string)

  /**
   * The `LambdaIntegrationOptions` part of a definition. The resolver reads and writes
   * only `requestParameters` and `requestTemplates`; `otherOptions` stands for the rest.
   */
  datatype IntegrationOptions = IntegrationOptions(
    requestParameters: Option<map<string, string>>,
    requestTemplates: Option<map<string, RequestTemplate>>,
    otherOptions: map<string, string>)

  datatype StatusSchema = StatusSchema(statusCode: nat, schema: Validation.Schema)

  /** `responses`: one schema, or a list of status codes with schemas. */
  datatype Responses = SingleSchema(schema: Validation.Schema) | ResponseList(entries: seq<StatusSchema>)

  /**
   * An `ApiResourceDefinition`. `isIntegration` is set when the definition object is
   * itself an `Integration`; `integration` and `fn` are set when those properties hold
   * an `Integration` and a `lambda.Function` respectively. `queryParams` keeps the
   * entries of the record in their iteration order.
   */
  datatype ResourceDef = ResourceDef(
    isIntegration: Option<IntegrationRef>,
    integration: Option<IntegrationRef>,
    fn: Option<FunctionRef>,
    queryParams: Option<seq<(string, bool)>>,
    auth: Option<AuthParam>,
    authorizationScopes: Option<seq<string>>,
    request: Option<Validation.Schema>,
    responses: Option<Responses>,
    options: IntegrationOptions)

  /** What the resolver returns: an integration given by the definition, or a new Lambda integration. */
  datatype Integration = Existing(ref: IntegrationRef) | LambdaIntegration(fn: FunctionRef, options: IntegrationOptions)

  /** The resolver's second argument. */
  datatype ResolveOptions = WithPathParams(pathParams: seq<string>) | SkipRequestTemplateCreation

  datatype ApiError = InvalidResourceDefinition | UnsupportedSchema(error: Validation.ConvertError)

  const IntegrationPathPrefix := "integration.request.path."
  const IntegrationQueryPrefix := "integration.request.querystring."
  const MethodPathPrefix := "method.request.path."
  const MethodQueryPrefix := "method.request.querystring."
  const JsonContentType := "application/json"
  const BodyTemplate := "$input.json(\"$\")"

  /** The first components of a list of entries. */
  function EntryKeys<V>(entries: seq<(string, V)>): (r: seq<string>)
    ensures |r| == |entries| && forall i | 0 <= i < |entries| :: r[i] == entries[i].0
  {
    seq(|entries|, i requires 0 <= i < |entries| => entries[i].0)
  }

  /** `Object.fromEntries`: a later entry overrides an earlier one with the same key. */
  function FromEntries<V>(entries: seq<(string, V)>): (m: map<string, V>)
    ensures m.Keys == set i | 0 <= i < |entries| :: entries[i].0
  {
    if |entries| == 0 then map[]
    else
      var front := entries[..|entries| - 1];
      var last := entries[|entries| - 1];
      var m := FromEntries(front)[last.0 := last.1];
      assert m.Keys == set i | 0 <= i < |entries| :: entries[i].0 by {
        forall k | k in m.Keys ensures k in set i | 0 <= i < |entries| :: entries[i].0 {
          if k != last.0 {
            var i :| 0 <= i < |front| && front[i].0 == k;
            assert entries[i].0 == k;
          }
        }
        forall i | 0 <= i < |entries| ensures entries[i].0 in m.Keys {
          if i < |front| {
            assert front[i].0 == entries[i].0;
          }
        }
      }
      m
  }

  /** When equal keys always carry equal values, every entry can be read back. */
  lemma {:induction false} FromEntriesReadBack<V>(entries: seq<(string, V)>)
    requires KeysAgree(entries)
    ensures forall i | 0 <= i < |entries| :: FromEntries(entries)[entries[i].0] == entries[i].1
  {
    if |entries| > 0 {
      var front := entries[..|entries| - 1];
      assert forall i | 0 <= i < |front| :: front[i] == entries[i];
      FromEntriesReadBack(front);
    }
  }

  /** Entries renaming each name from one prefix to another. */
  function RenamingEntries(names: seq<string>, from: string, to: string): (r: seq<(string, string)>)
    ensures |r| == |names| && forall i | 0 <= i < |names| :: r[i] == (from + names[i], to + names[i])
  {
    seq(|names|, i requires 0 <= i < |names| => (from + names[i], to + names[i]))
  }

  /** The `requestParameters` of a derived Lambda integration (lines 54-60). */
  function IntegrationRequestParameters(pathParams: seq<string>, queryKeys: seq<string>): map<string, string>
  {
    FromEntries(RenamingEntries(pathParams, IntegrationPathPrefix, MethodPathPrefix)
      + RenamingEntries(queryKeys, IntegrationQueryPrefix, MethodQueryPrefix))
  }

  /** The template's `params` or `query` part: each name mapped to its `$input.params()` lookup. */
  function TemplateLookups(names: seq<string>, location: string): map<string, string>
  {
    FromEntries(seq(|names|, i requires 0 <= i < |names| =>
      (names[i], "$input.params()." + location + ".get('" + names[i] + "')")))
  }

  function QueryKeys(queryParams: Option<seq<(string, bool)>>): seq<string>
  {
    if queryParams.Some? then EntryKeys(queryParams.value) else []
  }

  /** `getIntegrationFromResourceDefinition`. */
  function Resolve(def: ResourceDef, resolveOptions: ResolveOptions): (r: Result<Integration, ApiError>)
    ensures r.Failure? <==> def.isIntegration.None? && def.integration.None? && def.fn.None?
    ensures r.Failure? ==> r.error == InvalidResourceDefinition
    ensures def.isIntegration.Some? ==> r == Success(Existing(def.isIntegration.value))
    ensures def.isIntegration.None? && def.integration.Some? ==> r == Success(Existing(def.integration.value))
    ensures def.isIntegration.None? && def.integration.None? && def.fn.Some? ==>
      && r.Success? && r.value.LambdaIntegration? && r.value.fn == def.fn.value
      && r.value.options.otherOptions == def.options.otherOptions
      && (resolveOptions.SkipRequestTemplateCreation? ==> r.value.options == def.options)
  {
    if def.isIntegration.Some? then Success(Existing(def.isIntegration.value))
    else if def.integration.Some? then Success(Existing(def.integration.value))
    else if def.fn.Some? then
      var options := match resolveOptions
        case SkipRequestTemplateCreation => def.options
        case WithPathParams(pathParams) =>
          var queryKeys := QueryKeys(def.queryParams);
          def.options.(
            requestParameters := Some(IntegrationRequestParameters(pathParams, queryKeys)),
            requestTemplates := Some(map[JsonContentType := Envelope(
              TemplateLookups(pathParams, "path"), TemplateLookups(queryKeys, "querystring"), BodyTemplate)]));
      Success(LambdaIntegration(def.fn.value, options))
    else Failure(InvalidResourceDefinition)
  }

  lemma PrefixCancel(a: string, x: string, y: string)
    requires a + x == a + y
    ensures x == y
  {
    assert x == (a + x)[|a|..];
    assert y == (a + y)[|a|..];
  }

  predicate KeysAgree<V(==)>(entries: seq<(string, V)>)
  {
    forall i, j | 0 <= i < |entries| && 0 <= j < |entries| ::
      entries[i].0 == entries[j].0 ==> entries[i].1 == entries[j].1
  }

  lemma RenamingAgree(pathParams: seq<string>, queryKeys: seq<string>)
    ensures KeysAgree(RenamingEntries(pathParams, IntegrationPathPrefix, MethodPathPrefix)
      + RenamingEntries(queryKeys, IntegrationQueryPrefix, MethodQueryPrefix))
  {
    var a := RenamingEntries(pathParams, IntegrationPathPrefix, MethodPathPrefix);
    var b := RenamingEntries(queryKeys, IntegrationQueryPrefix, MethodQueryPrefix);
    var es := a + b;
    forall i, j | 0 <= i < |es| && 0 <= j < |es| ensures es[i].0 == es[j].0 ==> es[i].1 == es[j].1 {
      if i < |a| && j < |a| {
        if es[i].0 == es[j].0 {
          PrefixCancel(IntegrationPathPrefix, pathParams[i], pathParams[j]);
        }
      } else if i >= |a| && j >= |a| {
        if es[i].0 == es[j].0 {
          PrefixCancel(IntegrationQueryPrefix, queryKeys[i - |a|], queryKeys[j - |a|]);
        }
      } else if i < |a| {
        PrefixesDiffer(pathParams[i], queryKeys[j - |a|]);
      } else {
        PrefixesDiffer(pathParams[j], queryKeys[i - |a|]);
      }
    }
  }

  lemma PrefixesDiffer(p: string, q: string)
    ensures IntegrationPathPrefix + p != IntegrationQueryPrefix + q
  {
    assert (IntegrationPathPrefix + p)[20] == 'p';
    assert (IntegrationQueryPrefix + q)[20] == 'q';
  }

  /**
   * The derived `requestParameters` map `integration.request.path.p` to
   * `method.request.path.p` for each path parameter and `integration.request.querystring.q`
   * to `method.request.querystring.q` for each query key, and hold nothing else.
   */
  lemma IntegrationRequestParametersKeys(pathParams: seq<string>, queryKeys: seq<string>)
    ensures IntegrationRequestParameters(pathParams, queryKeys).Keys ==
      (set p | p in pathParams :: IntegrationPathPrefix + p) + (set q | q in queryKeys :: IntegrationQueryPrefix + q)
  {
    var a := RenamingEntries(pathParams, IntegrationPathPrefix, MethodPathPrefix);
    var b := RenamingEntries(queryKeys, IntegrationQueryPrefix, MethodQueryPrefix);
    var es := a + b;
    var m := FromEntries(es);
    var pathKeys := set p | p in pathParams :: IntegrationPathPrefix + p;
    var queryKeySet := set q | q in queryKeys :: IntegrationQueryPrefix + q;
    forall k | k in m.Keys ensures k in pathKeys + queryKeySet {
      var i :| 0 <= i < |es| && es[i].0 == k;
      if i < |a| {
        assert pathParams[i] in pathParams;
      } else {
        assert queryKeys[i - |a|] in queryKeys;
      }
    }
    forall k | k in pathKeys + queryKeySet ensures k in m.Keys {
      if k in pathKeys {
        var p :| p in pathParams && k == IntegrationPathPrefix + p;
        var i :| 0 <= i < |pathParams| && pathParams[i] == p;
        assert es[i] == a[i];
      } else {
        var q :| q in queryKeys && k == IntegrationQueryPrefix + q;
        var i :| 0 <= i < |queryKeys| && queryKeys[i] == q;
        assert es[|a| + i] == b[i];
      }
    }
  }

  lemma IntegrationRequestParametersValues(pathParams: seq<string>, queryKeys: seq<string>)
    ensures forall p | p in pathParams ::
      && IntegrationPathPrefix + p in IntegrationRequestParameters(pathParams, queryKeys)
      && IntegrationRequestParameters(pathParams, queryKeys)[IntegrationPathPrefix + p] == MethodPathPrefix + p
    ensures forall q | q in queryKeys ::
      && IntegrationQueryPrefix + q in IntegrationRequestParameters(pathParams, queryKeys)
      && IntegrationRequestParameters(pathParams, queryKeys)[IntegrationQueryPrefix + q] == MethodQueryPrefix + q
  {
    var a := RenamingEntries(pathParams, IntegrationPathPrefix, MethodPathPrefix);
    var b := RenamingEntries(queryKeys, IntegrationQueryPrefix, MethodQueryPrefix);
    var es := a + b;
    var m := FromEntries(es);
    RenamingAgree(pathParams, queryKeys);
    FromEntriesReadBack(es);
    forall p | p in pathParams ensures IntegrationPathPrefix + p in m && m[IntegrationPathPrefix + p] == MethodPathPrefix + p {
      var i :| 0 <= i < |pathParams| && pathParams[i] == p;
      assert es[i] == a[i];
    }
    forall q | q in queryKeys ensures IntegrationQueryPrefix + q in m && m[IntegrationQueryPrefix + q] == MethodQueryPrefix + q {
      var i :| 0 <= i < |queryKeys| && queryKeys[i] == q;
      assert es[|a| + i] == b[i];
    }
  }

  /** The template's `params`/`query` map holds each name once, with its own lookup. */
  lemma TemplateLookupsExactly(names: seq<string>, location: string)
    ensures TemplateLookups(names, location).Keys == set n | n in names
    ensures forall n | n in names ::
      TemplateLookups(names, location)[n] == "$input.params()." + location + ".get('" + n + "')"
  {
    var es := seq(|names|, i requires 0 <= i < |names| =>
      (names[i], "$input.params()." + location + ".get('" + names[i] + "')"));
    assert KeysAgree(es);
    FromEntriesReadBack(es);
    forall n | n in names ensures n in TemplateLookups(names, location) && TemplateLookups(names, location)[n] == "$input.params()." + location + ".get('" + n + "')" {
      var i :| 0 <= i < |names| && names[i] == n;
      assert es[i].0 == n;
    }
    assert TemplateLookups(names, location).Keys == set n | n in names by {
      forall k | k in TemplateLookups(names, location) ensures k in names {
        var i :| 0 <= i < |es| && es[i].0 == k;
      }
    }
  }

  /**
   * A function-backed definition resolved with path parameters gets its
   * `requestParameters` and `requestTemplates` replaced: the renaming map and a single
   * `application/json` envelope with `params`, `query` and the body passthrough.
   */
  lemma ResolveTemplating(def: ResourceDef, pathParams: seq<string>)
    requires def.isIntegration.None? && def.integration.None? && def.fn.Some?
    ensures var r := Resolve(def, WithPathParams(pathParams));
      && r.Success? && r.value.LambdaIntegration?
      && r.value.options.requestParameters == Some(IntegrationRequestParameters(pathParams, QueryKeys(def.queryParams)))
      && r.value.options.requestTemplates.Some?
      && r.value.options.requestTemplates.value.Keys == {JsonContentType}
      && r.value.options.requestTemplates.value[JsonContentType] == Envelope(
        TemplateLookups(pathParams, "path"), TemplateLookups(QueryKeys(def.queryParams), "querystring"), BodyTemplate)
  {
  }

  // ---------------------------------------------------------------------------
  // Authorizer precedence.
  // ---------------------------------------------------------------------------

  /** The authorizer part of a method's options; `NoAuthOptions` is the source's `null`. */
  datatype MethodAuth =
    | NoAuthOptions
    | AuthOptions(authorizer: Option<AuthorizerRef>, authorizationScopes: Option<seq<string>>)

  /** `createMethodAuthDef`. */
  function CreateMethodAuthDef(globalAuthorizer: Option<AuthorizerRef>, def: ResourceDef): (r: MethodAuth)
    ensures r.NoAuthOptions? <==> def.isIntegration.None? && def.auth == Some(AuthDisabled)
    ensures def.isIntegration.Some? ==> r == AuthOptions(globalAuthorizer, None)
    ensures def.isIntegration.None? && r.AuthOptions? ==> r.authorizationScopes == def.authorizationScopes
    ensures r.AuthOptions? ==>
      r.authorizer == if def.isIntegration.None? && def.auth.Some? && def.auth.value.UseAuthorizer?
                      then Some(def.auth.value.authorizer) else globalAuthorizer
  {
    if def.isIntegration.Some? then AuthOptions(globalAuthorizer, None)
    else if def.auth == Some(AuthDisabled) then NoAuthOptions
    else
      var authorizer := if def.auth.Some? && def.auth.value.UseAuthorizer? then Some(def.auth.value.authorizer) else globalAuthorizer;
      AuthOptions(authorizer, def.authorizationScopes)
  }

  /** A route's own authorizer makes the global one irrelevant; so does `auth: false`. */
  lemma RouteAuthorizerOverridesGlobal(g1: Option<AuthorizerRef>, g2: Option<AuthorizerRef>, def: ResourceDef)
    requires def.isIntegration.None? && def.auth.Some?
    ensures CreateMethodAuthDef(g1, def) == CreateMethodAuthDef(g2, def)
  {
  }

  /** A raw integration takes only the global authorizer: its own `auth` and scopes are never read. */
  lemma RawIntegrationIgnoresRouteAuth(g: Option<AuthorizerRef>, def: ResourceDef, auth: Option<AuthParam>, scopes: Option<seq<string>>)
    requires def.isIntegration.Some?
    ensures CreateMethodAuthDef(g, def) == CreateMethodAuthDef(g, def.(auth := auth, authorizationScopes := scopes))
  {
  }

  // ---------------------------------------------------------------------------
  // What one route registers (the body of the constructor's loop, lines 142-224).
  // ---------------------------------------------------------------------------

  /** `params.globalParams`: the global authorizer and CORS options. */
  datatype GlobalParams = GlobalParams(auth: Option<AuthorizerRef>, cors: Option<CorsRef>)

  /** `ApiResourceParams`: a proxy definition and/or one definition per HTTP method. */
  datatype RouteParams = RouteParams(
    proxy: Option<ResourceDef>,
    get: Option<ResourceDef>,
    post: Option<ResourceDef>,
    put: Option<ResourceDef>,
    delete: Option<ResourceDef>)

  /** `isProxyResourceDef`: the `proxy` key is present and (an object, so) truthy. */
  predicate IsProxyResourceDef(route: RouteParams)
  {
    route.proxy.Some?
  }

  /** `ApiHttpResourceKeys`: the HTTP methods a route may define. */
  datatype HttpMethod = Get | Post | Put | Delete

  /** The key of a method in a route definition, which is also its name in artifact names. */
  function MethodKey(m: HttpMethod): string
  {
    match m
    case Get => "get"
    case Post => "post"
    case Put => "put"
    case Delete => "delete"
  }

  /** `method.toUpperCase()`: the HTTP verb `addMethod` receives. */
  function MethodVerb(m: HttpMethod): string
  {
    match m
    case Get => "GET"
    case Post => "POST"
    case Put => "PUT"
    case Delete => "DELETE"
  }

  /** The verb is the upper-cased key. */
  lemma MethodVerbIsUpperKey(m: HttpMethod)
    ensures MethodVerb(m) == UpperAll(MethodKey(m))
  {
  }

  const HttpMethods: seq<HttpMethod> := [Get, Post, Put, Delete]

  /** `resourceDef[method]`. */
  function MethodDefinition(route: RouteParams, m: HttpMethod): Option<ResourceDef>
  {
    match m
    case Get => route.get
    case Post => route.post
    case Put => route.put
    case Delete => route.delete
  }

  datatype MethodResponse = MethodResponse(statusCode: string, responseModel: string)

  /** The options `addMethod` receives; `requestModel` names the `application/json` model. */
  datatype MethodOptions = MethodOptions(
    requestValidatorName: string,
    validateRequestBody: bool,
    validateRequestParameters: bool,
    requestParameters: map<string, bool>,
    requestModel: Option<string>,
    methodResponses: Option<seq<MethodResponse>>,
    auth: MethodAuth)

  /** A call into the CDK library, recorded instead of made. */
  datatype Registration =
    | ProxyAdded(resource: nat, defaultIntegration: Integration)
    | CorsPreflightAdded(resource: nat, cors: CorsRef)
    | ModelAdded(name: string, contentType: string, schema: Validation.Doc)
    | MethodAdded(resource: nat, httpMethod: string, integration: Integration, options: MethodOptions)

  /** The registrations a step makes, and whether it completes or throws. */
  datatype Emitted = Emitted(log: seq<Registration>, outcome: Outcome<ApiError>)

  /** `pathParams.map(param => [`method.request.path.${param}`, true])` (lines 156-158). */
  function MethodPathEntries(pathParams: seq<string>): (r: seq<(string, bool)>)
    ensures |r| == |pathParams| && forall i | 0 <= i < |pathParams| :: r[i] == (MethodPathPrefix + pathParams[i], true)
  {
    seq(|pathParams|, i requires 0 <= i < |pathParams| => (MethodPathPrefix + pathParams[i], true))
  }

  /** The query-string entries of a method's `queryParams`, each keeping its flag (lines 169-177). */
  function MethodQueryEntries(queryParams: seq<(string, bool)>): (r: seq<(string, bool)>)
    ensures |r| == |queryParams|
    ensures forall i | 0 <= i < |queryParams| :: r[i] == (MethodQueryPrefix + queryParams[i].0, queryParams[i].1)
  {
    seq(|queryParams|, i requires 0 <= i < |queryParams| => (MethodQueryPrefix + queryParams[i].0, queryParams[i].1))
  }

  /** The method-level `requestParameters` (lines 156-158, 169-177, 195-198). */
  function MethodRequestParameters(pathParams: seq<string>, queryParams: Option<seq<(string, bool)>>): map<string, bool>
  {
    var queryDef := if queryParams.Some? then FromEntries(MethodQueryEntries(queryParams.value)) else map[];
    FromEntries(MethodPathEntries(pathParams)) + queryDef
  }

  lemma MethodPrefixesDiffer(p: string, q: string)
    ensures MethodPathPrefix + p != MethodQueryPrefix + q
  {
    assert (MethodPathPrefix + p)[15] == 'p';
    assert (MethodQueryPrefix + q)[15] == 'q';
  }

  /**
   * The method-level `requestParameters` hold `method.request.path.p` for each path
   * parameter `p` and `method.request.querystring.q` for each declared query parameter
   * `q`, and nothing else.
   */
  lemma MethodRequestParametersKeys(pathParams: seq<string>, queryParams: Option<seq<(string, bool)>>)
    ensures MethodRequestParameters(pathParams, queryParams).Keys ==
      (set p | p in pathParams :: MethodPathPrefix + p) + (set q | q in QueryKeys(queryParams) :: MethodQueryPrefix + q)
  {
    PathEntriesKeys(pathParams);
    if queryParams.Some? {
      QueryEntriesKeys(queryParams.value);
    }
  }

  lemma PathEntriesKeys(pathParams: seq<string>)
    ensures FromEntries(MethodPathEntries(pathParams)).Keys == set p | p in pathParams :: MethodPathPrefix + p
  {
    var entries := MethodPathEntries(pathParams);
    forall k | k in FromEntries(entries) ensures k in set p | p in pathParams :: MethodPathPrefix + p {
      var i :| 0 <= i < |entries| && entries[i].0 == k;
      assert pathParams[i] in pathParams;
    }
    forall p | p in pathParams ensures MethodPathPrefix + p in FromEntries(entries) {
      var i :| 0 <= i < |pathParams| && pathParams[i] == p;
      assert entries[i].0 == MethodPathPrefix + p;
    }
  }

  lemma QueryEntriesKeys(qs: seq<(string, bool)>)
    ensures FromEntries(MethodQueryEntries(qs)).Keys == set q | q in EntryKeys(qs) :: MethodQueryPrefix + q
  {
    var entries := MethodQueryEntries(qs);
    forall k | k in FromEntries(entries) ensures k in set q | q in EntryKeys(qs) :: MethodQueryPrefix + q {
      var i :| 0 <= i < |entries| && entries[i].0 == k;
      assert EntryKeys(qs)[i] == qs[i].0;
    }
    forall q | q in EntryKeys(qs) ensures MethodQueryPrefix + q in FromEntries(entries) {
      var i :| 0 <= i < |qs| && EntryKeys(qs)[i] == q;
      assert entries[i].0 == MethodQueryPrefix + q;
    }
  }

  /**
   * Each path parameter is declared required (`true`), and each declared query parameter
   * keeps its own flag; a path and a query parameter never share a key.
   */
  lemma MethodRequestParametersValues(pathParams: seq<string>, queryParams: Option<seq<(string, bool)>>)
    requires queryParams.Some? ==> KeysAgree(queryParams.value)
    ensures forall p | p in pathParams ::
      && MethodPathPrefix + p in MethodRequestParameters(pathParams, queryParams)
      && MethodRequestParameters(pathParams, queryParams)[MethodPathPrefix + p]
    ensures queryParams.Some? ==> forall i | 0 <= i < |queryParams.value| ::
      && MethodQueryPrefix + queryParams.value[i].0 in MethodRequestParameters(pathParams, queryParams)
      && MethodRequestParameters(pathParams, queryParams)[MethodQueryPrefix + queryParams.value[i].0] == queryParams.value[i].1
  {
    var pathEntries := MethodPathEntries(pathParams);
    var qs := if queryParams.Some? then queryParams.value else [];
    var queryEntries := MethodQueryEntries(qs);
    var queryDef := FromEntries(queryEntries);
    var r := MethodRequestParameters(pathParams, queryParams);
    assert r == FromEntries(pathEntries) + queryDef;
    assert KeysAgree(pathEntries);
    FromEntriesReadBack(pathEntries);
    forall p | p in pathParams ensures MethodPathPrefix + p in r && r[MethodPathPrefix + p] {
      var i :| 0 <= i < |pathParams| && pathParams[i] == p;
      assert pathEntries[i].0 == MethodPathPrefix + p;
      if MethodPathPrefix + p in queryDef {
        var j :| 0 <= j < |queryEntries| && queryEntries[j].0 == MethodPathPrefix + p;
        MethodPrefixesDiffer(p, qs[j].0);
      }
    }
    QueryEntriesAgree(qs);
    FromEntriesReadBack(queryEntries);
    forall i | 0 <= i < |qs| ensures MethodQueryPrefix + qs[i].0 in r && r[MethodQueryPrefix + qs[i].0] == qs[i].1 {
      assert queryEntries[i].0 == MethodQueryPrefix + qs[i].0;
    }
  }

  lemma QueryEntriesAgree(qs: seq<(string, bool)>)
    requires KeysAgree(qs)
    ensures KeysAgree(MethodQueryEntries(qs))
  {
    var es := MethodQueryEntries(qs);
    forall i, j | 0 <= i < |es| && 0 <= j < |es| && es[i].0 == es[j].0 ensures es[i].1 == es[j].1 {
      PrefixCancel(MethodQueryPrefix, qs[i].0, qs[j].0);
    }
  }

  /** `methodDef.responses`, a lone schema being answered with status 200. */
  function NormalisedResponses(responses: Responses): (r: seq<StatusSchema>)
    ensures responses.SingleSchema? ==> r == [StatusSchema(200, responses.schema)]
    ensures responses.ResponseList? ==> r == responses.entries
  {
    match responses
    case SingleSchema(schema) => [StatusSchema(200, schema)]
    case ResponseList(entries) => entries
  }

  /** `addModelFromZodSchema`: the converted document is registered under `name`. */
  function ModelRegistration(name: string, schema: Validation.Schema): (r: Result<Registration, ApiError>)
    ensures r.Success? <==> Validation.ApiGatewayModel(schema).Success?
    ensures r.Success? ==> r.value == ModelAdded(name, JsonContentType, Validation.ApiGatewayModel(schema).value)
    ensures r.Failure? ==> r.error == UnsupportedSchema(Validation.ApiGatewayModel(schema).error)
  {
    var doc := Validation.ApiGatewayModel(schema);
    if doc.Failure? then Failure(UnsupportedSchema(doc.error)) else Success(ModelAdded(name, JsonContentType, doc.value))
  }

  /** The models registered for the first `n` responses, and their `methodResponses` entries. */
  function ResponseModels(name: string, responses: seq<StatusSchema>, n: nat): (r: (seq<Registration>, Result<seq<MethodResponse>, ApiError>))
    requires n <= |responses|
    ensures r.1.Success? ==> |r.0| == n && |r.1.value| == n
    ensures r.1.Success? ==> forall i | 0 <= i < n ::
      && Validation.ApiGatewayModel(responses[i].schema).Success?
      && r.0[i] == ModelAdded(name, JsonContentType, Validation.ApiGatewayModel(responses[i].schema).value)
      && r.1.value[i] == MethodResponse(NatToString(responses[i].statusCode), name)
    ensures r.1.Success? <==> forall i | 0 <= i < n :: Validation.ApiGatewayModel(responses[i].schema).Success?
    ensures forall i | 0 <= i < |r.0| :: r.0[i].ModelAdded?
  {
    if n == 0 then ([], Success([]))
    else
      var front := ResponseModels(name, responses, n - 1);
      if front.1.Failure? then front
      else
        var model := ModelRegistration(name, responses[n - 1].schema);
        if model.Failure? then (front.0, Failure(model.error))
        else (front.0 + [model.value], Success(front.1.value + [MethodResponse(NatToString(responses[n - 1].statusCode), name)]))
  }

  /** The options `addMethod` receives for `def` (lines 188-222). */
  function MethodOptionsFor(global: GlobalParams, names: ArtifactNames, pathParams: seq<string>,
                            def: ResourceDef, requestModel: Option<string>, methodResponses: Option<seq<MethodResponse>>): MethodOptions
  {
    MethodOptions(
      names.validator, true, true,
      MethodRequestParameters(pathParams, def.queryParams),
      requestModel, methodResponses,
      CreateMethodAuthDef(global.auth, def))
  }

  predicate RequestConverts(def: ResourceDef)
  {
    def.request.Some? ==> Validation.ApiGatewayModel(def.request.value).Success?
  }

  predicate ResponsesConvert(def: ResourceDef)
  {
    def.responses.Some? ==>
      var rs := NormalisedResponses(def.responses.value);
      forall i | 0 <= i < |rs| :: Validation.ApiGatewayModel(rs[i].schema).Success?
  }

  /** The names `createName` gives a method's validator and models (lines 167, 190, 202, 213). */
  datatype ArtifactNames = ArtifactNames(validator: string, requestModel: string, responseModel: string)

  function ArtifactNamesFor(httpMethod: HttpMethod, fullPath: string): ArtifactNames
  {
    var key := MethodKey(httpMethod);
    ArtifactNames(
      NamespacedName(key, fullPath, "Request-Validator"),
      NamespacedName(key, fullPath, "Request-Model"),
      NamespacedName(key, fullPath, "Response-Model"))
  }

  /** `buildNamespacedNameCreator({ path: fullPath, method })`, for each method of a route. */
  function NameCreator(fullPath: string): HttpMethod -> ArtifactNames
  {
    m => ArtifactNamesFor(m, fullPath)
  }

  /** The response models of a method that declares responses, and its `methodResponses` (lines 205-216). */
  function DeclaredResponses(names: ArtifactNames, def: ResourceDef): (seq<Registration>, Result<seq<MethodResponse>, ApiError>)
    requires def.responses.Some?
  {
    var rs := NormalisedResponses(def.responses.value);
    ResponseModels(names.responseModel, rs, |rs|)
  }

  /** The request model of one method, and the name `requestModels` refers to (lines 199-204). */
  function RequestModelOf(names: ArtifactNames, def: ResourceDef): (seq<Registration>, Result<Option<string>, ApiError>)
  {
    if def.request.None? then ([], Success(None))
    else
      var model := ModelRegistration(names.requestModel, def.request.value);
      if model.Failure? then ([], Failure(model.error)) else ([model.value], Success(Some(names.requestModel)))
  }

  /** The request model (if any), then the response models (if any) of one method. */
  function MethodModels(names: ArtifactNames, def: ResourceDef)
    : (r: (seq<Registration>, Result<(Option<string>, Option<seq<MethodResponse>>), ApiError>))
    ensures forall i | 0 <= i < |r.0| :: r.0[i].ModelAdded?
    ensures r.1.Success? <==> RequestConverts(def) && ResponsesConvert(def)
  {
    var request := RequestModelOf(names, def);
    if request.1.Failure? then ([], Failure(request.1.error))
    else if def.responses.None? then (request.0, Success((request.1.value, None)))
    else
      var responses := DeclaredResponses(names, def);
      if responses.1.Failure? then (request.0 + responses.0, Failure(responses.1.error))
      else (request.0 + responses.0, Success((request.1.value, Some(responses.1.value))))
  }

  /**
   * A method's models: the request schema is registered as `application/json` under the
   * request model name before any response model; a request schema that does not
   * convert throws before any response model is registered; the response models and
   * `methodResponses` are those of the declared responses; and `requestModels` names
   * the request model exactly when a request schema is declared.
   */
  lemma MethodModelsContents(names: ArtifactNames, def: ResourceDef)
    ensures var r := MethodModels(names, def);
      && (!RequestConverts(def) ==>
            r == ([], Failure(UnsupportedSchema(Validation.ApiGatewayModel(def.request.value).error))))
      && (RequestConverts(def) && def.request.Some? ==>
            |r.0| >= 1
            && r.0[0] == ModelAdded(names.requestModel, JsonContentType, Validation.ApiGatewayModel(def.request.value).value))
      && (RequestConverts(def) ==>
            var k := if def.request.Some? then 1 else 0;
            |r.0| >= k && r.0[k..] == (if def.responses.Some? then DeclaredResponses(names, def).0 else []))
      && (RequestConverts(def) && def.responses.Some? && r.1.Failure? ==> r.1.error == DeclaredResponses(names, def).1.error)
      && (r.1.Success? ==>
            && r.1.value.0 == (if def.request.Some? then Some(names.requestModel) else None)
            && r.1.value.1 == (if def.responses.Some? then Some(DeclaredResponses(names, def).1.value) else None))
  {
    var r := MethodModels(names, def);
    if RequestConverts(def) && def.request.Some? {
      var tail := if def.responses.Some? then DeclaredResponses(names, def).0 else [];
      assert r.0 == [r.0[0]] + tail;
    }
  }

  /** `addCorsPreflight`, when CORS is configured (lines 179-181). */
  function Preflight(global: GlobalParams, leaf: nat): seq<Registration>
  {
    if global.cors.Some? then [CorsPreflightAdded(leaf, global.cors.value)] else []
  }

  /**
   * One iteration of the method loop: the CORS preflight (when configured), the
   * integration, the request model, the response models, then the method itself.
   * A throw stops the sequence where it happens.
   */
  function MethodRegistrations(global: GlobalParams, names: ArtifactNames, pathParams: seq<string>, leaf: nat,
                               httpMethod: HttpMethod, def: ResourceDef): (e: Emitted)
    ensures e.outcome.Pass? <==>
      Resolve(def, WithPathParams(pathParams)).Success? && RequestConverts(def) && ResponsesConvert(def)
    ensures Resolve(def, WithPathParams(pathParams)).Failure? ==> e.outcome == Fail(InvalidResourceDefinition)
    ensures global.cors.Some? <==> |e.log| > 0 && e.log[0].CorsPreflightAdded?
    ensures global.cors.Some? ==> e.log[0] == CorsPreflightAdded(leaf, global.cors.value)
    ensures forall i | 0 <= i < |e.log| :: (i > 0 || global.cors.None?) ==> e.log[i].ModelAdded? || e.log[i].MethodAdded?
    ensures forall i | 0 <= i < |e.log| :: e.log[i].MethodAdded? ==> e.outcome.Pass? && i == |e.log| - 1
    ensures e.outcome.Pass? ==> |e.log| > 0 && e.log[|e.log| - 1].MethodAdded?
  {
    var preflight := Preflight(global, leaf);
    var integration := Resolve(def, WithPathParams(pathParams));
    if integration.Failure? then Emitted(preflight, Fail(integration.error))
    else
      var models := MethodModels(names, def);
      if models.1.Failure? then Emitted(preflight + models.0, Fail(models.1.error))
      else
        var options := MethodOptionsFor(global, names, pathParams, def, models.1.value.0, models.1.value.1);
        Emitted(preflight + models.0 + [MethodAdded(leaf, MethodVerb(httpMethod), integration.value, options)], Pass)
  }

  /**
   * What one iteration logs: only the preflight when the resolver throws (line 184);
   * otherwise the preflight, then the method's models, then (when every model converts)
   * the method itself, as the argument evaluation of lines 188-222 orders them.
   */
  lemma MethodRegistrationsLog(global: GlobalParams, names: ArtifactNames, pathParams: seq<string>, leaf: nat,
                               httpMethod: HttpMethod, def: ResourceDef)
    ensures var e := MethodRegistrations(global, names, pathParams, leaf, httpMethod, def);
      && (Resolve(def, WithPathParams(pathParams)).Failure? ==> e.log == Preflight(global, leaf))
      && (Resolve(def, WithPathParams(pathParams)).Success? && e.outcome.Fail? ==>
            e.log == Preflight(global, leaf) + MethodModels(names, def).0
            && e.outcome == Fail(MethodModels(names, def).1.error))
      && (e.outcome.Pass? ==> |e.log| >= 1 && e.log[..|e.log| - 1] == Preflight(global, leaf) + MethodModels(names, def).0)
  {
    var e := MethodRegistrations(global, names, pathParams, leaf, httpMethod, def);
    if e.outcome.Pass? {
      var front := Preflight(global, leaf) + MethodModels(names, def).0;
      assert e.log == front + [e.log[|e.log| - 1]];
      assert (front + [e.log[|e.log| - 1]])[..|front|] == front;
    }
  }

  /**
   * A registered method sits on the route's leaf, under the upper-cased name, with the
   * resolved integration and exactly the options of lines 188-222: the validator name
   * with both validations on, the path and query request parameters, the request model
   * name when a request schema is declared, the `methodResponses` of the declared
   * responses, and the authorizer precedence of `createMethodAuthDef`.
   */
  lemma MethodRegistrationsPass(global: GlobalParams, names: ArtifactNames, pathParams: seq<string>, leaf: nat,
                                httpMethod: HttpMethod, def: ResourceDef)
    requires MethodRegistrations(global, names, pathParams, leaf, httpMethod, def).outcome.Pass?
    ensures var log := MethodRegistrations(global, names, pathParams, leaf, httpMethod, def).log;
      && |log| > 0
      && log[|log| - 1] == MethodAdded(leaf, MethodVerb(httpMethod), Resolve(def, WithPathParams(pathParams)).value,
                                       log[|log| - 1].options)
      && log[|log| - 1].options == MethodOptions(
           names.validator, true, true,
           MethodRequestParameters(pathParams, def.queryParams),
           if def.request.Some? then Some(names.requestModel) else None,
           if def.responses.Some? then Some(DeclaredResponses(names, def).1.value) else None,
           CreateMethodAuthDef(global.auth, def))
  {
  }

  /** The method a step registers, when it registers one, sits on the leaf under the upper-cased name. */
  lemma MethodRegistrationsAdded(global: GlobalParams, names: ArtifactNames, pathParams: seq<string>, leaf: nat,
                                 httpMethod: HttpMethod, def: ResourceDef)
    ensures var log := MethodRegistrations(global, names, pathParams, leaf, httpMethod, def).log;
      forall i | 0 <= i < |log| :: log[i].MethodAdded? ==> log[i].resource == leaf && log[i].httpMethod == MethodVerb(httpMethod)
  {
    var e := MethodRegistrations(global, names, pathParams, leaf, httpMethod, def);
    if e.outcome.Pass? {
      MethodRegistrationsPass(global, names, pathParams, leaf, httpMethod, def);
    }
  }

  /** Whether one method definition registers without a throw (lines 184-186, 199-216). */
  predicate MethodAccepted(pathParams: seq<string>, def: ResourceDef)
  {
    Resolve(def, WithPathParams(pathParams)).Success? && RequestConverts(def) && ResponsesConvert(def)
  }

  /**
   * The definitions among the first `k` entries of `HttpMethods`, in that order, the
   * methods the route does not define being skipped (`continue`, lines 163-165).
   */
  function DefinedMethods(route: RouteParams, k: nat): (r: seq<(HttpMethod, ResourceDef)>)
    requires k <= |HttpMethods|
    ensures |r| <= k
    ensures forall j | 0 <= j < |r| :: r[j].0 in HttpMethods[..k] && MethodDefinition(route, r[j].0) == Some(r[j].1)
    ensures forall j | 0 <= j < k :: MethodDefinition(route, HttpMethods[j]).Some? ==>
      (HttpMethods[j], MethodDefinition(route, HttpMethods[j]).value) in r
  {
    if k == 0 then []
    else
      var front := DefinedMethods(route, k - 1);
      match MethodDefinition(route, HttpMethods[k - 1])
      case None => front
      case Some(def) => front + [(HttpMethods[k - 1], def)]
  }

  /** The position of a verb in the loop's order `get`, `post`, `put`, `delete` (line 151). */
  function VerbIndex(m: HttpMethod): (i: nat)
    ensures i < |HttpMethods| && HttpMethods[i] == m
  {
    match m
    case Get => 0
    case Post => 1
    case Put => 2
    case Delete => 3
  }

  /** Every verb comes before the `bound`-th in `HttpMethods`, and each strictly after the one before. */
  predicate InVerbOrder(defs: seq<(HttpMethod, ResourceDef)>, bound: nat)
  {
    && (forall j | 0 <= j < |defs| :: VerbIndex(defs[j].0) < bound)
    && (forall i, j | 0 <= i < j < |defs| :: VerbIndex(defs[i].0) < VerbIndex(defs[j].0))
  }

  /** The definitions visited are in strictly increasing verb order, so none is visited twice. */
  lemma {:induction false} DefinedMethodsOrdered(route: RouteParams, k: nat)
    requires k <= |HttpMethods|
    ensures InVerbOrder(DefinedMethods(route, k), k)
  {
    if k > 0 {
      var front := DefinedMethods(route, k - 1);
      DefinedMethodsOrdered(route, k - 1);
      var m := MethodDefinition(route, HttpMethods[k - 1]);
      if m.Some? {
        var d := (HttpMethods[k - 1], m.value);
        assert DefinedMethods(route, k) == front + [d];
        InVerbOrderSnoc(front, d, k - 1);
      } else {
        assert DefinedMethods(route, k) == front;
        InVerbOrderWiden(front, k - 1);
      }
    }
  }

  lemma InVerbOrderWiden(defs: seq<(HttpMethod, ResourceDef)>, bound: nat)
    requires InVerbOrder(defs, bound)
    ensures InVerbOrder(defs, bound + 1)
  {
  }

  lemma InVerbOrderSnoc(defs: seq<(HttpMethod, ResourceDef)>, d: (HttpMethod, ResourceDef), bound: nat)
    requires InVerbOrder(defs, bound) && VerbIndex(d.0) == bound
    ensures InVerbOrder(defs + [d], bound + 1)
  {
    var r := defs + [d];
    assert forall j | 0 <= j < |defs| :: r[j] == defs[j];
  }

  /** The HTTP method names of the `addMethod` calls in a log, in order. */
  function AddedMethods(log: seq<Registration>): seq<string>
  {
    if |log| == 0 then []
    else (if log[0].MethodAdded? then [log[0].httpMethod] else []) + AddedMethods(log[1..])
  }

  /** Every preflight, proxy and method the loop registers sits on the route's leaf. */
  predicate AtLeaf(r: Registration, leaf: nat)
  {
    !r.ModelAdded? ==> r.resource == leaf
  }

  /** The number of `addCorsPreflight` calls in a log. */
  function Preflights(log: seq<Registration>): nat
  {
    if |log| == 0 then 0
    else (if log[0].CorsPreflightAdded? then 1 else 0) + Preflights(log[1..])
  }

  lemma {:induction false} AddedMethodsAppend(a: seq<Registration>, b: seq<Registration>)
    ensures AddedMethods(a + b) == AddedMethods(a) + AddedMethods(b)
    ensures Preflights(a + b) == Preflights(a) + Preflights(b)
  {
    if |a| > 0 {
      assert (a + b)[1..] == a[1..] + b;
      AddedMethodsAppend(a[1..], b);
    } else {
      assert a + b == b;
    }
  }

  /** One accepted method adds exactly one method, and one preflight when CORS is configured. */
  lemma {:induction false} MethodRegistrationsCounts(global: GlobalParams, names: ArtifactNames, pathParams: seq<string>, leaf: nat,
                                                     httpMethod: HttpMethod, def: ResourceDef)
    requires MethodRegistrations(global, names, pathParams, leaf, httpMethod, def).outcome.Pass?
    ensures var log := MethodRegistrations(global, names, pathParams, leaf, httpMethod, def).log;
      AddedMethods(log) == [MethodVerb(httpMethod)] && Preflights(log) == (if global.cors.Some? then 1 else 0)
  {
    var log := MethodRegistrations(global, names, pathParams, leaf, httpMethod, def).log;
    MethodRegistrationsAdded(global, names, pathParams, leaf, httpMethod, def);
    StepLogCounts(log, MethodVerb(httpMethod), global.cors.Some?);
  }

  /**
   * A log made of an optional preflight, then models, then one method adds exactly that
   * method, and one preflight when there is one.
   */
  lemma StepLogCounts(log: seq<Registration>, verb: string, cors: bool)
    requires |log| > 0 && log[|log| - 1].MethodAdded? && log[|log| - 1].httpMethod == verb
    requires cors ==> log[0].CorsPreflightAdded?
    requires forall i | 0 <= i < |log| - 1 :: (i > 0 || !cors) ==> log[i].ModelAdded?
    ensures AddedMethods(log) == [verb] && Preflights(log) == (if cors then 1 else 0)
  {
    var n := |log|;
    var start := if cors then 1 else 0;
    assert log[..start] + log[start..n - 1] + [log[n - 1]] == log;
    AddedMethodsAppend(log[..start] + log[start..n - 1], [log[n - 1]]);
    AddedMethodsAppend(log[..start], log[start..n - 1]);
    ModelsOnly(log[start..n - 1]);
    assert AddedMethods([log[n - 1]]) == [verb] && Preflights([log[n - 1]]) == 0 by {
      assert [log[n - 1]][1..] == [];
    }
    if cors {
      assert AddedMethods(log[..1]) == [] && Preflights(log[..1]) == 1 by {
        assert log[..1][1..] == [];
      }
    }
  }

  /** A stretch of model registrations adds no method and no preflight. */
  lemma {:induction false} ModelsOnly(xs: seq<Registration>)
    requires forall i | 0 <= i < |xs| :: xs[i].ModelAdded?
    ensures AddedMethods(xs) == [] && Preflights(xs) == 0
  {
    if |xs| > 0 {
      ModelsOnly(xs[1..]);
    }
  }

  /** The verbs `addMethod` receives for `defs`. */
  function MethodNames(defs: seq<(HttpMethod, ResourceDef)>): (r: seq<string>)
    ensures |r| == |defs| && forall i | 0 <= i < |r| :: r[i] == MethodVerb(defs[i].0)
  {
    if |defs| == 0 then [] else MethodNames(defs[..|defs| - 1]) + [MethodVerb(defs[|defs| - 1].0)]
  }

  /**
   * The registrations of the defined methods `defs` (the loop of lines 160-223), each
   * method's artifacts being named by `createNames` (`createName`, line 167). A throw
   * stops the loop.
   */
  function MethodsRegistrations(global: GlobalParams, createNames: HttpMethod -> ArtifactNames, pathParams: seq<string>,
                                leaf: nat, defs: seq<(HttpMethod, ResourceDef)>): (e: Emitted)
    ensures e.outcome.Fail? ==> e.outcome.error.InvalidResourceDefinition? || e.outcome.error.UnsupportedSchema?
    ensures forall i | 0 <= i < |e.log| :: AtLeaf(e.log[i], leaf)
  {
    if |defs| == 0 then Emitted([], Pass)
    else
      var front := MethodsRegistrations(global, createNames, pathParams, leaf, defs[..|defs| - 1]);
      if front.outcome.Fail? then front
      else
        var (httpMethod, def) := defs[|defs| - 1];
        var names := createNames(httpMethod);
        var step := MethodRegistrations(global, names, pathParams, leaf, httpMethod, def);
        MethodRegistrationsAdded(global, names, pathParams, leaf, httpMethod, def);
        Emitted(front.log + step.log, step.outcome)
  }

  /** The loop completes exactly when every defined method is accepted. */
  lemma {:induction false} MethodsRegistrationsOutcome(global: GlobalParams, createNames: HttpMethod -> ArtifactNames,
                                                       pathParams: seq<string>, leaf: nat, defs: seq<(HttpMethod, ResourceDef)>)
    ensures MethodsRegistrations(global, createNames, pathParams, leaf, defs).outcome.Pass?
        <==> AllAccepted(pathParams, defs)
  {
    if |defs| > 0 {
      MethodsRegistrationsOutcome(global, createNames, pathParams, leaf, defs[..|defs| - 1]);
      AllAcceptedSnoc(pathParams, defs);
    }
  }

  /**
   * A completed loop has added one method per definition, in order, and one CORS
   * preflight per added method when CORS is configured (none otherwise).
   */
  lemma {:induction false} MethodsRegistrationsCounts(global: GlobalParams, createNames: HttpMethod -> ArtifactNames,
                                                      pathParams: seq<string>, leaf: nat, defs: seq<(HttpMethod, ResourceDef)>)
    requires MethodsRegistrations(global, createNames, pathParams, leaf, defs).outcome.Pass?
    ensures var log := MethodsRegistrations(global, createNames, pathParams, leaf, defs).log;
      && AddedMethods(log) == MethodNames(defs)
      && Preflights(log) == (if global.cors.Some? then |defs| else 0)
  {
    if |defs| > 0 {
      var front := defs[..|defs| - 1];
      MethodsRegistrationsCounts(global, createNames, pathParams, leaf, front);
      var (httpMethod, def) := defs[|defs| - 1];
      var log := MethodsRegistrations(global, createNames, pathParams, leaf, front).log;
      var step := MethodRegistrations(global, createNames(httpMethod), pathParams, leaf, httpMethod, def);
      assert MethodsRegistrations(global, createNames, pathParams, leaf, defs).log == log + step.log;
      AddedMethodsAppend(log, step.log);
      MethodRegistrationsCounts(global, createNames(httpMethod), pathParams, leaf, httpMethod, def);
    }
  }

  /** Once the loop has thrown, the methods after the failing one register nothing. */
  lemma {:induction false} MethodsRegistrationsFailureStays(global: GlobalParams, createNames: HttpMethod -> ArtifactNames,
                                                            pathParams: seq<string>, leaf: nat,
                                                            defs: seq<(HttpMethod, ResourceDef)>, n: nat)
    requires n <= |defs|
    requires MethodsRegistrations(global, createNames, pathParams, leaf, defs[..n]).outcome.Fail?
    ensures MethodsRegistrations(global, createNames, pathParams, leaf, defs)
         == MethodsRegistrations(global, createNames, pathParams, leaf, defs[..n])
    decreases |defs|
  {
    if n < |defs| {
      var front := defs[..|defs| - 1];
      assert front[..n] == defs[..n];
      MethodsRegistrationsFailureStays(global, createNames, pathParams, leaf, front, n);
    } else {
      assert defs[..n] == defs;
    }
  }

  /** The definitions among the first `k` methods are a prefix of those among the first `k'`. */
  lemma {:induction false} DefinedMethodsPrefix(route: RouteParams, k: nat, k': nat)
    requires k <= k' <= |HttpMethods|
    ensures DefinedMethods(route, k) <= DefinedMethods(route, k')
    decreases k' - k
  {
    if k < k' {
      DefinedMethodsPrefix(route, k, k' - 1);
    }
  }

  /** Whether a route registers without a throw: its proxy resolves, or every method it defines is accepted. */
  predicate RouteAccepted(fullPath: string, route: RouteParams)
  {
    if IsProxyResourceDef(route) then Resolve(route.proxy.value, SkipRequestTemplateCreation).Success?
    else forall m | m in HttpMethods && MethodDefinition(route, m).Some? ::
      MethodAccepted(PathParams(PathSegments(fullPath)), MethodDefinition(route, m).value)
  }

  /**
   * What one route registers on its leaf resource: the proxy, or the loop over the
   * HTTP methods with the path parameters of the route's own segments (lines 142-224).
   */
  function RouteRegistrations(global: GlobalParams, fullPath: string, route: RouteParams, leaf: nat): (e: Emitted)
    ensures e.outcome.Fail? ==> e.outcome.error.InvalidResourceDefinition? || e.outcome.error.UnsupportedSchema?
    ensures IsProxyResourceDef(route) ==>
      |e.log| <= 1 && (e.outcome.Pass? <==> |e.log| == 1) && forall i | 0 <= i < |e.log| :: e.log[i].ProxyAdded?
  {
    if IsProxyResourceDef(route) then
      var integration := Resolve(route.proxy.value, SkipRequestTemplateCreation);
      if integration.Failure? then Emitted([], Fail(integration.error))
      else Emitted([ProxyAdded(leaf, integration.value)], Pass)
    else MethodsRegistrations(global, NameCreator(fullPath), PathParams(PathSegments(fullPath)), leaf,
                           DefinedMethods(route, |HttpMethods|))
  }

  /** A proxy route ignores its method keys and the global CORS options. */
  lemma ProxyRouteIgnoresMethods(g1: GlobalParams, g2: GlobalParams, fullPath: string, route: RouteParams, leaf: nat,
                                 get: Option<ResourceDef>, post: Option<ResourceDef>, put: Option<ResourceDef>, delete: Option<ResourceDef>)
    requires IsProxyResourceDef(route)
    ensures RouteRegistrations(g1, fullPath, route, leaf)
         == RouteRegistrations(g2, fullPath, route.(get := get, post := post, put := put, delete := delete), leaf)
  {
  }

  /** Every registration of a route sits on its leaf resource, models aside. */
  lemma RouteRegistrationsAtLeaf(global: GlobalParams, fullPath: string, route: RouteParams, leaf: nat)
    ensures var log := RouteRegistrations(global, fullPath, route, leaf).log;
      forall i | 0 <= i < |log| :: AtLeaf(log[i], leaf)
  {
  }

  /** A route registers without a throw exactly when it is accepted, whatever its leaf and the global options. */
  lemma RouteRegistrationsOutcome(global: GlobalParams, fullPath: string, route: RouteParams, leaf: nat)
    ensures RouteRegistrations(global, fullPath, route, leaf).outcome.Pass? <==> RouteAccepted(fullPath, route)
  {
    if !IsProxyResourceDef(route) {
      var pathParams := PathParams(PathSegments(fullPath));
      MethodsRegistrationsOutcome(global, NameCreator(fullPath), pathParams, leaf, DefinedMethods(route, |HttpMethods|));
      DefinedMethodsAccepted(route, pathParams);
    }
  }

  /** Every definition of a visited list is accepted. */
  predicate AllAccepted(pathParams: seq<string>, defs: seq<(HttpMethod, ResourceDef)>)
  {
    forall j | 0 <= j < |defs| :: MethodAccepted(pathParams, defs[j].1)
  }

  /** Every method among the first `k` of the loop's order that the route defines is accepted. */
  predicate AcceptedUpTo(route: RouteParams, pathParams: seq<string>, k: nat)
    requires k <= |HttpMethods|
  {
    forall i | 0 <= i < k && MethodDefinition(route, HttpMethods[i]).Some? ::
      MethodAccepted(pathParams, MethodDefinition(route, HttpMethods[i]).value)
  }

  lemma AllAcceptedAppend(pathParams: seq<string>, defs: seq<(HttpMethod, ResourceDef)>, d: (HttpMethod, ResourceDef))
    ensures AllAccepted(pathParams, defs + [d]) <==> AllAccepted(pathParams, defs) && MethodAccepted(pathParams, d.1)
  {
    if AllAccepted(pathParams, defs + [d]) {
      assert (defs + [d])[|defs|] == d;
      forall j | 0 <= j < |defs| ensures MethodAccepted(pathParams, defs[j].1) {
        assert (defs + [d])[j] == defs[j];
      }
    }
  }

  lemma AllAcceptedSnoc(pathParams: seq<string>, defs: seq<(HttpMethod, ResourceDef)>)
    requires |defs| > 0
    ensures AllAccepted(pathParams, defs)
      <==> AllAccepted(pathParams, defs[..|defs| - 1]) && MethodAccepted(pathParams, defs[|defs| - 1].1)
  {
    assert defs == defs[..|defs| - 1] + [defs[|defs| - 1]];
    AllAcceptedAppend(pathParams, defs[..|defs| - 1], defs[|defs| - 1]);
  }

  /** The visited definitions of the first `k` methods are all accepted exactly when those methods are. */
  lemma {:induction false} DefinedMethodsAcceptedUpTo(route: RouteParams, pathParams: seq<string>, k: nat)
    requires k <= |HttpMethods|
    ensures AllAccepted(pathParams, DefinedMethods(route, k)) <==> AcceptedUpTo(route, pathParams, k)
    decreases k
  {
    if k > 0 {
      DefinedMethodsAcceptedUpTo(route, pathParams, k - 1);
      var front := DefinedMethods(route, k - 1);
      match MethodDefinition(route, HttpMethods[k - 1])
      case None =>
      case Some(def) => AllAcceptedAppend(pathParams, front, (HttpMethods[k - 1], def));
    }
  }

  /** Every visited definition is accepted exactly when every method the route defines is. */
  lemma DefinedMethodsAccepted(route: RouteParams, pathParams: seq<string>)
    ensures AllAccepted(pathParams, DefinedMethods(route, |HttpMethods|))
      <==> (forall m | m in HttpMethods && MethodDefinition(route, m).Some? ::
              MethodAccepted(pathParams, MethodDefinition(route, m).value))
  {
    DefinedMethodsAcceptedUpTo(route, pathParams, |HttpMethods|);
    assert HttpMethods[0] == Get && HttpMethods[1] == Post && HttpMethods[2] == Put && HttpMethods[3] == Delete;
  }

  /** One more method of the route's loop: skipped when undefined, else its registrations appended. */
  lemma MethodsRegistrationsNext(global: GlobalParams, createNames: HttpMethod -> ArtifactNames, pathParams: seq<string>,
                                 leaf: nat, route: RouteParams, k: nat)
    requires k < |HttpMethods|
    requires MethodsRegistrations(global, createNames, pathParams, leaf, DefinedMethods(route, k)).outcome.Pass?
    ensures var prev := MethodsRegistrations(global, createNames, pathParams, leaf, DefinedMethods(route, k));
      var next := MethodsRegistrations(global, createNames, pathParams, leaf, DefinedMethods(route, k + 1));
      var m := HttpMethods[k];
      if MethodDefinition(route, m).None? then next == prev
      else
        var step := MethodRegistrations(global, createNames(m), pathParams, leaf, m, MethodDefinition(route, m).value);
        next == Emitted(prev.log + step.log, step.outcome)
  {
    var front := DefinedMethods(route, k);
    var m := HttpMethods[k];
    if MethodDefinition(route, m).Some? {
      var x := (m, MethodDefinition(route, m).value);
      assert DefinedMethods(route, k + 1) == front + [x];
      assert (front + [x])[..|front|] == front;
    }
  }

  /** A throw while registering the first `k` methods is the route's outcome. */
  lemma MethodsRegistrationsStopAt(global: GlobalParams, createNames: HttpMethod -> ArtifactNames, pathParams: seq<string>,
                                   leaf: nat, route: RouteParams, k: nat)
    requires k <= |HttpMethods|
    requires MethodsRegistrations(global, createNames, pathParams, leaf, DefinedMethods(route, k)).outcome.Fail?
    ensures MethodsRegistrations(global, createNames, pathParams, leaf, DefinedMethods(route, |HttpMethods|))
         == MethodsRegistrations(global, createNames, pathParams, leaf, DefinedMethods(route, k))
  {
    var all := DefinedMethods(route, |HttpMethods|);
    DefinedMethodsPrefix(route, k, |HttpMethods|);
    var n := |DefinedMethods(route, k)|;
    assert all[..n] == DefinedMethods(route, k);
    MethodsRegistrationsFailureStays(global, createNames, pathParams, leaf, all, n);
  }
}
