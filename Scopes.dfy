/**
 * `PCCapScope`: what a capability permits, and `matches_request`, which runs
 * four checks in a fixed order (tool name, path containment, content size,
 * pinned argument values) and reports the first one that fails.
 */
module Scopes {
  import opened Wrappers
  import opened Text
  import opened PosixPaths
  import opened JsonText

  /** A request argument value: the closed set of shapes the gateway passes. */
  datatype ArgValue = Str(s: string) | Int(i: int) | Bool(b: bool) | Bytes(bs: seq<byte>)

  /** A value a scope may pin an argument to; it must survive JSON encoding, so no bytes. */
  datatype Scalar = SStr(s: string) | SInt(i: int) | SBool(b: bool)

  type Arguments = map<string, ArgValue>

  /** A dict's items in insertion order; keys are expected to be distinct. */
  type ArgPins = seq<(string, Scalar)>

  datatype Scope = Scope(
    toolName: string,
    allowedArgs: ArgPins,
    pathPrefix: Option<string>,
    maxBytes: Option<int>)

  /** Which check rejected a request, with what the source's message mentions. */
  datatype ScopeFailure =
    | ToolMismatch(requested: string, permitted: string)
    | PathTraversal(path: string)
    | OutsidePrefix(path: string, prefix: string)
    | ExceedsMaxBytes(maxBytes: int)
    | ArgMismatch(key: string, actual: Option<ArgValue>, expected: Scalar)

  datatype ScopeCheck = Matched | Mismatched(why: ScopeFailure)

  /** The number a Python `int` or `bool` stands for: `True == 1` and `False == 0`. */
  function Numeric(v: ArgValue): Option<int> {
    match v
    case Int(i) => Some(i)
    case Bool(b) => Some(if b then 1 else 0)
    case _ => None
  }

  /**
   * Python's `actual == expected` between an argument (`None` when absent) and
   * a pinned value: strings compare as strings, `int` and `bool` as numbers,
   * and bytes equal no pinned value.
   */
  predicate PyEquals(actual: Option<ArgValue>, expected: Scalar) {
    match actual
    case None => false
    case Some(v) =>
      match expected
      case SStr(t) => v.Str? && v.s == t
      case SInt(j) => Numeric(v) == Some(j)
      case SBool(b) => Numeric(v) == Some(if b then 1 else 0)
  }

  /** `arguments.get(key)`. */
  function Get(args: Arguments, key: string): Option<ArgValue> {
    if key in args then Some(args[key]) else None
  }

  // ---------------------------------------------------- Python value semantics

  /** Python truthiness; `None` is falsy. */
  predicate Truthy(v: Option<ArgValue>) {
    match v
    case None => false
    case Some(Str(s)) => s != ""
    case Some(Int(i)) => i != 0
    case Some(Bool(b)) => b
    case Some(Bytes(bs)) => bs != []
  }

  /** Python's `a or b`: `a` when it is truthy, `b` otherwise. */
  function Or(a: Option<ArgValue>, b: Option<ArgValue>): Option<ArgValue> {
    if Truthy(a) then a else b
  }

  /** One byte inside Python's `repr` of a `bytes` value quoted with `quote`. */
  function ByteReprChar(c: byte, quote: char): string {
    if c == quote as int || c == '\\' as int then ['\\', c as char]
    else if c == 9 then "\\t"
    else if c == 10 then "\\n"
    else if c == 13 then "\\r"
    else if c < 0x20 || c >= 0x7f then ['\\', 'x', HexLower(c / 16), HexLower(c % 16)]
    else [c as char]
  }

  function BytesReprBody(bs: seq<byte>, quote: char): string {
    if bs == [] then "" else ByteReprChar(bs[0], quote) + BytesReprBody(bs[1..], quote)
  }

  /** `str(b)` for `bytes`: `b'...'`, switching to double quotes when only `'` occurs. */
  function BytesRepr(bs: seq<byte>): string {
    var quote := if '\'' as int in bs && '"' as int !in bs then '"' else '\'';
    "b" + [quote] + BytesReprBody(bs, quote) + [quote]
  }

  /** `str(v)`. */
  function PyStr(v: ArgValue): string {
    match v
    case Str(s) => s
    case Int(i) => IntToDecimal(i)
    case Bool(b) => if b then "True" else "False"
    case Bytes(bs) => BytesRepr(bs)
  }

  /** The size the `max_bytes` check measures: raw length for bytes, UTF-8 length of `str(v)` otherwise. */
  function ByteSize(v: ArgValue): nat {
    if v.Bytes? then |v.bs| else |Utf8Encode(PyStr(v))|
  }

  // ---------------------------------------------------- the four checks

  /** `arguments.get("path") or arguments.get("file_path") or arguments.get("target")`. */
  function PathArgument(args: Arguments): Option<ArgValue> {
    Or(Or(Get(args, "path"), Get(args, "file_path")), Get(args, "target"))
  }

  /** `arguments.get("content") or arguments.get("data")`. */
  function ContentArgument(args: Arguments): Option<ArgValue> {
    Or(Get(args, "content"), Get(args, "data"))
  }

  /**
   * The path check for a request path `text` against `prefix`: reject any `..`
   * piece before and after `normpath`, then require `commonpath` of the two
   * absolute forms to be the prefix's absolute form; a `ValueError` from
   * `commonpath` rejects too.
   */
  function CheckPath(prefix: string, text: string, cwd: string): Option<ScopeFailure> {
    if ".." in Split(text) then Some(PathTraversal(text))
    else
      var normalized := Normpath(text);
      if ".." in Split(normalized) then Some(PathTraversal(text))
      else
        var requested := AbsPath(cwd, normalized);
        var allowed := AbsPath(cwd, Normpath(prefix));
        match CommonPath(requested, allowed)
        case None => Some(OutsidePrefix(text, prefix))
        case Some(common) => if common != allowed then Some(OutsidePrefix(text, prefix)) else None
  }

  function PathFailure(scope: Scope, args: Arguments, cwd: string): Option<ScopeFailure> {
    if scope.pathPrefix.None? then None
    else
      var path := PathArgument(args);
      if !Truthy(path) then None
      else CheckPath(scope.pathPrefix.value, PyStr(path.value), cwd)
  }

  function SizeFailure(scope: Scope, args: Arguments): Option<ScopeFailure> {
    if scope.maxBytes.None? then None
    else
      var content := ContentArgument(args);
      if content.None? then None
      else if ByteSize(content.value) > scope.maxBytes.value then Some(ExceedsMaxBytes(scope.maxBytes.value))
      else None
  }

  /** The loop over `allowed_args`, in insertion order: the first pinned key whose value differs. */
  function PinFailure(pins: ArgPins, args: Arguments): Option<ScopeFailure> {
    if pins == [] then None
    else
      var (key, expected) := pins[0];
      var actual := Get(args, key);
      if !PyEquals(actual, expected) then Some(ArgMismatch(key, actual, expected))
      else PinFailure(pins[1..], args)
  }

  /** `PCCapScope.matches_request`, with `cwd` standing for `os.getcwd()`. */
  function MatchesRequest(scope: Scope, toolName: string, args: Arguments, cwd: string): ScopeCheck {
    if toolName != scope.toolName then Mismatched(ToolMismatch(toolName, scope.toolName))
    else if PathFailure(scope, args, cwd).Some? then Mismatched(PathFailure(scope, args, cwd).value)
    else if SizeFailure(scope, args).Some? then Mismatched(SizeFailure(scope, args).value)
    else if PinFailure(scope.allowedArgs, args).Some? then Mismatched(PinFailure(scope.allowedArgs, args).value)
    else Matched
  }

  // ---------------------------------------------------- declarative reading

  /** The first truthy value among `vs`, if any. */
  function FirstTruthy(vs: seq<Option<ArgValue>>): Option<ArgValue> {
    if vs == [] then None else if Truthy(vs[0]) then vs[0] else FirstTruthy(vs[1..])
  }

  /**
   * `prefix` contains the request path `text`: no `..` piece, both absolute forms
   * equally rooted, the prefix's components a leading run of the request's, and
   * the prefix's absolute form written with its components and a plain root.
   */
  ghost predicate PathWithin(prefix: string, text: string, cwd: string) {
    var requested := AbsPath(cwd, Normpath(text));
    var allowed := AbsPath(cwd, Normpath(prefix));
    && ".." !in Split(text)
    && IsAbs(requested) == IsAbs(allowed)
    && Comps(allowed) <= Comps(requested)
    && allowed == (if IsAbs(allowed) then "/" else "") + Join(Comps(allowed))
  }

  ghost predicate PathAllowed(scope: Scope, args: Arguments, cwd: string) {
    var path := FirstTruthy([Get(args, "path"), Get(args, "file_path"), Get(args, "target")]);
    scope.pathPrefix.None? || path.None? || PathWithin(scope.pathPrefix.value, PyStr(path.value), cwd)
  }

  ghost predicate SizeAllowed(scope: Scope, args: Arguments) {
    var content := if Truthy(Get(args, "content")) then Get(args, "content") else Get(args, "data");
    scope.maxBytes.None? || content.None? || ByteSize(content.value) <= scope.maxBytes.value
  }

  ghost predicate PinsHold(pins: ArgPins, args: Arguments) {
    forall i :: 0 <= i < |pins| ==> PyEquals(Get(args, pins[i].0), pins[i].1)
  }

  // ---------------------------------------------------- path containment

  lemma {:induction false} CommonPrefixOfLeadingRun(xs: seq<string>, ys: seq<string>)
    requires xs <= ys
    ensures CommonPrefix(ys, xs) == xs
  {
    if xs != [] {
      assert xs[1..] <= ys[1..];
      CommonPrefixOfLeadingRun(xs[1..], ys[1..]);
    }
  }

  /** The path check accepts exactly the paths `PathWithin` the prefix. */
  lemma CheckPathCharacterized(prefix: string, text: string, cwd: string)
    ensures CheckPath(prefix, text, cwd) == None <==> PathWithin(prefix, text, cwd)
  {
    if ".." !in Split(text) {
      NormpathNoDotDot(text);
      var requested := AbsPath(cwd, Normpath(text));
      var allowed := AbsPath(cwd, Normpath(prefix));
      if IsAbs(requested) == IsAbs(allowed) {
        var root := if IsAbs(allowed) then "/" else "";
        var common := CommonPrefix(Comps(requested), Comps(allowed));
        assert CommonPath(requested, allowed) == Some(root + Join(common));
        if Comps(allowed) <= Comps(requested) {
          CommonPrefixOfLeadingRun(Comps(allowed), Comps(requested));
        }
        if root + Join(common) == allowed {
          assert AllComponents(common) by {
            forall i | 0 <= i < |common| ensures IsComponent(common[i]) {
              assert common[i] == Comps(requested)[i];
            }
          }
          CompsOfRendered(|root|, common);
          assert Slashes(|root|) == root;
          assert Comps(allowed) == common;
        }
      }
    }
  }

  /**
   * With an absolute working directory (what `os.getcwd()` returns) the check
   * accepts a path exactly when it has no `..` piece and the prefix's absolute
   * form, rooted at a single slash, is a component-wise leading run of the
   * request's absolute form. A prefix rooted at exactly two slashes (`//tmp`)
   * therefore never matches.
   */
  lemma ContainmentUnderAbsoluteCwd(prefix: string, text: string, cwd: string)
    requires IsAbs(cwd)
    ensures var requested := AbsPath(cwd, Normpath(text));
      var allowed := AbsPath(cwd, Normpath(prefix));
      CheckPath(prefix, text, cwd) == None <==>
        ".." !in Split(text) && RootSlashes(allowed) == 1 && Comps(allowed) <= Comps(requested)
  {
    CheckPathCharacterized(prefix, text, cwd);
    var requested := AbsPath(cwd, Normpath(text));
    var allowed := AbsPath(cwd, Normpath(prefix));
    AbsPathIsAbs(cwd, Normpath(text));
    AbsPathIsAbs(cwd, Normpath(prefix));
    var p := Normpath(prefix);
    var t := if IsAbs(p) then p else JoinPath(cwd, p);
    assert IsAbs(t);
    NormpathShape(t);
    var (k, cs) := NormParts(t);
    assert allowed == Slashes(k) + Join(cs);
    if k == 1 {
      assert Slashes(1) == "/";
    } else {
      assert k == 2;
      assert |allowed| == 2 + |Join(cs)|;
    }
  }

  // ---------------------------------------------------- the whole check

  lemma PathArgumentIsFirstTruthy(args: Arguments)
    ensures Truthy(PathArgument(args)) <==>
      FirstTruthy([Get(args, "path"), Get(args, "file_path"), Get(args, "target")]).Some?
    ensures Truthy(PathArgument(args)) ==>
      PathArgument(args) == FirstTruthy([Get(args, "path"), Get(args, "file_path"), Get(args, "target")])
  {
    var vs := [Get(args, "path"), Get(args, "file_path"), Get(args, "target")];
    assert vs[1..] == [vs[1], vs[2]];
    assert [vs[1], vs[2]][1..] == [vs[2]];
    assert [vs[2]][1..] == [];
    assert FirstTruthy([vs[2]]) == if Truthy(vs[2]) then vs[2] else None;
    assert FirstTruthy([vs[1], vs[2]]) == if Truthy(vs[1]) then vs[1] else FirstTruthy([vs[2]]);
    assert FirstTruthy(vs) == if Truthy(vs[0]) then vs[0] else FirstTruthy([vs[1], vs[2]]);
  }

  lemma {:induction false} PinFailureCharacterized(pins: ArgPins, args: Arguments)
    ensures PinFailure(pins, args).None? <==> PinsHold(pins, args)
    ensures PinFailure(pins, args).Some? ==>
      exists i :: 0 <= i < |pins| && PinsHold(pins[..i], args)
        && !PyEquals(Get(args, pins[i].0), pins[i].1)
        && PinFailure(pins, args) == Some(ArgMismatch(pins[i].0, Get(args, pins[i].0), pins[i].1))
  {
    if pins != [] {
      PinFailureCharacterized(pins[1..], args);
      var (key, expected) := pins[0];
      if PyEquals(Get(args, key), expected) {
        if PinFailure(pins, args).Some? {
          var i :| 0 <= i < |pins[1..]| && PinsHold(pins[1..][..i], args)
            && !PyEquals(Get(args, pins[1..][i].0), pins[1..][i].1)
            && PinFailure(pins[1..], args) == Some(ArgMismatch(pins[1..][i].0, Get(args, pins[1..][i].0), pins[1..][i].1));
          assert PinsHold(pins[..i + 1], args) by {
            forall j | 0 <= j < i + 1 ensures PyEquals(Get(args, pins[j].0), pins[j].1) {
              if j > 0 { assert pins[..i + 1][j] == pins[1..][..i][j - 1]; }
            }
          }
        } else {
          assert PinsHold(pins, args) by {
            forall j | 0 <= j < |pins| ensures PyEquals(Get(args, pins[j].0), pins[j].1) {
              if j > 0 { assert pins[j] == pins[1..][j - 1]; }
            }
          }
        }
      } else {
        assert PinsHold(pins[..0], args);
      }
    }
  }

  /**
   * A request matches exactly when the tool name is equal and the path, size
   * and pinned-argument conditions all hold; a failure names the first check
   * in the order tool, path, size, pins that does not hold, and for pins the
   * first pinned key, in insertion order, whose value differs.
   */
  lemma MatchesRequestCharacterized(scope: Scope, toolName: string, args: Arguments, cwd: string)
    ensures MatchesRequest(scope, toolName, args, cwd) == Matched <==>
      && toolName == scope.toolName
      && PathAllowed(scope, args, cwd)
      && SizeAllowed(scope, args)
      && PinsHold(scope.allowedArgs, args)
    ensures MatchesRequest(scope, toolName, args, cwd).Mismatched? ==> match MatchesRequest(scope, toolName, args, cwd).why
      case ToolMismatch(_, _) => toolName != scope.toolName
      case PathTraversal(_) => toolName == scope.toolName && !PathAllowed(scope, args, cwd)
      case OutsidePrefix(_, _) => toolName == scope.toolName && !PathAllowed(scope, args, cwd)
      case ExceedsMaxBytes(_) =>
        toolName == scope.toolName && PathAllowed(scope, args, cwd) && !SizeAllowed(scope, args)
      case ArgMismatch(key, actual, expected) =>
        && toolName == scope.toolName && PathAllowed(scope, args, cwd) && SizeAllowed(scope, args)
        && exists i :: 0 <= i < |scope.allowedArgs| && PinsHold(scope.allowedArgs[..i], args)
             && scope.allowedArgs[i] == (key, expected) && actual == Get(args, key) && !PyEquals(actual, expected)
  {
    PathArgumentIsFirstTruthy(args);
    PinFailureCharacterized(scope.allowedArgs, args);
    if scope.pathPrefix.Some? && Truthy(PathArgument(args)) {
      CheckPathCharacterized(scope.pathPrefix.value, PyStr(PathArgument(args).value), cwd);
    }
  }

  /** The keys whose values `matches_request` can read for this scope. */
  function ReadKeys(scope: Scope): set<string> {
    {"path", "file_path", "target", "content", "data"} + set i | 0 <= i < |scope.allowedArgs| :: scope.allowedArgs[i].0
  }

  lemma {:induction false} PinFailureReadsOnlyPins(pins: ArgPins, args: Arguments, args': Arguments)
    requires forall i :: 0 <= i < |pins| ==> Get(args, pins[i].0) == Get(args', pins[i].0)
    ensures PinFailure(pins, args) == PinFailure(pins, args')
  {
    if pins != [] {
      assert Get(args, pins[0].0) == Get(args', pins[0].0);
      PinFailureReadsOnlyPins(pins[1..], args, args');
    }
  }

  /**
   * Arguments other than `path`, `file_path`, `target`, `content`, `data` and the
   * pinned keys never change the outcome: extra request keys cannot cause a rejection.
   */
  lemma ExtraArgumentsIgnored(scope: Scope, toolName: string, args: Arguments, args': Arguments, cwd: string)
    requires forall k :: k in ReadKeys(scope) ==> Get(args, k) == Get(args', k)
    ensures MatchesRequest(scope, toolName, args, cwd) == MatchesRequest(scope, toolName, args', cwd)
  {
    assert Get(args, "path") == Get(args', "path");
    assert Get(args, "file_path") == Get(args', "file_path");
    assert Get(args, "target") == Get(args', "target");
    assert Get(args, "content") == Get(args', "content");
    assert Get(args, "data") == Get(args', "data");
    forall i | 0 <= i < |scope.allowedArgs| ensures Get(args, scope.allowedArgs[i].0) == Get(args', scope.allowedArgs[i].0) {
      assert scope.allowedArgs[i].0 in ReadKeys(scope);
    }
    PinFailureReadsOnlyPins(scope.allowedArgs, args, args');
  }

  // ---------------------------------------------------- containment for clean absolute paths

  /** Components with no `.`, `..` or empty piece: the shape of an already-normal path. */
  predicate CleanComponents(cs: seq<string>) {
    AllComponents(cs) && ".." !in cs
  }

  /** A clean absolute path that extends the prefix's components is admitted, whatever the cwd. */
  lemma ClosedUnderPrefix(prefix: seq<string>, rest: seq<string>, cwd: string)
    requires CleanComponents(prefix) && CleanComponents(rest)
    ensures CheckPath("/" + Join(prefix), "/" + Join(prefix + rest), cwd) == None
  {
    CanonicalAbsolutePath(prefix, cwd);
    CanonicalAbsolutePath(prefix + rest, cwd);
    CheckPathCharacterized("/" + Join(prefix), "/" + Join(prefix + rest), cwd);
  }

  /**
   * A clean absolute path whose components do not start with the prefix's is
   * rejected as outside the prefix: a sibling such as `/tmp/scratchy` under
   * `/tmp/scratch` shares the text but not the component.
   */
  lemma DivergentPathOutside(prefix: seq<string>, requested: seq<string>, cwd: string)
    requires CleanComponents(prefix) && CleanComponents(requested)
    requires !(prefix <= requested)
    ensures CheckPath("/" + Join(prefix), "/" + Join(requested), cwd)
         == Some(OutsidePrefix("/" + Join(requested), "/" + Join(prefix)))
  {
    CanonicalAbsolutePath(prefix, cwd);
    CanonicalAbsolutePath(requested, cwd);
    CheckPathCharacterized("/" + Join(prefix), "/" + Join(requested), cwd);
  }

  /** For a scope that only restricts the path, a request with one non-empty `path` gets the path check's verdict. */
  lemma PathOnlyScope(tool: string, prefix: string, text: string, cwd: string)
    requires text != ""
    ensures MatchesRequest(Scope(tool, [], Some(prefix), None), tool, map["path" := Str(text)], cwd)
         == (if CheckPath(prefix, text, cwd).None? then Matched else Mismatched(CheckPath(prefix, text, cwd).value))
  {
    assert PathArgument(map["path" := Str(text)]) == Some(Str(text));
  }

  /** For ASCII string content the size `max_bytes` limits is its character count. */
  lemma AsciiContentSize(s: string)
    requires IsAscii(s)
    ensures ByteSize(Str(s)) == |s|
  {
    Utf8OfAscii(s);
  }

  // ---------------------------------------------------- to_dict / from_dict

  /** Why a dictionary does not decode: a required key is absent, a value has the wrong shape, or the algorithm is unknown. */
  datatype DecodeError = MissingKey(key: string) | WrongType(key: string) | UnknownAlgorithm(name: string)

  function ScalarJson(v: Scalar): Json {
    match v
    case SStr(s) => JStr(s)
    case SInt(i) => JInt(i)
    case SBool(b) => JBool(b)
  }

  function JsonScalar(j: Json): Option<Scalar> {
    match j
    case JStr(s) => Some(SStr(s))
    case JInt(i) => Some(SInt(i))
    case JBool(b) => Some(SBool(b))
    case _ => None
  }

  function OptStrJson(o: Option<string>): Json {
    if o.Some? then JStr(o.value) else JNull
  }

  function OptIntJson(o: Option<int>): Json {
    if o.Some? then JInt(o.value) else JNull
  }

  /** `PCCapScope.to_dict`, members in the order the source writes them. */
  function ScopeMembers(s: Scope): seq<(string, Json)> {
    [("tool_name", JStr(s.toolName)),
     ("allowed_args", JObject(MapValues(ScalarJson, s.allowedArgs))),
     ("path_prefix", OptStrJson(s.pathPrefix)),
     ("max_bytes", OptIntJson(s.maxBytes))]
  }

  function ScopeToDict(s: Scope): Json {
    JObject(ScopeMembers(s))
  }

  /** `d[key]` where the value must be a string. */
  function RequiredStr(d: seq<(string, Json)>, key: string): Result<string, DecodeError> {
    match Lookup(d, key)
    case None => Err(MissingKey(key))
    case Some(JStr(s)) => Ok(s)
    case Some(_) => Err(WrongType(key))
  }

  /** `d[key]` where the value must be an integer. */
  function RequiredInt(d: seq<(string, Json)>, key: string): Result<int, DecodeError> {
    match Lookup(d, key)
    case None => Err(MissingKey(key))
    case Some(JInt(i)) => Ok(i)
    case Some(_) => Err(WrongType(key))
  }

  /** `d.get(key)` where a present value must be a string or null. */
  function OptionalStr(d: seq<(string, Json)>, key: string): Result<Option<string>, DecodeError> {
    match Lookup(d, key)
    case None => Ok(None)
    case Some(JNull) => Ok(None)
    case Some(JStr(s)) => Ok(Some(s))
    case Some(_) => Err(WrongType(key))
  }

  /** `d.get(key)` where a present value must be an integer or null. */
  function OptionalInt(d: seq<(string, Json)>, key: string): Result<Option<int>, DecodeError> {
    match Lookup(d, key)
    case None => Ok(None)
    case Some(JNull) => Ok(None)
    case Some(JInt(i)) => Ok(Some(i))
    case Some(_) => Err(WrongType(key))
  }

  /** The members of an `allowed_args` object, each of which must be a string, integer or boolean. */
  function DecodePins(ms: seq<(string, Json)>): Result<ArgPins, DecodeError> {
    if ms == [] then Ok([])
    else match JsonScalar(ms[0].1)
      case None => Err(WrongType("allowed_args"))
      case Some(v) =>
        var rest :- DecodePins(ms[1..]);
        Ok([(ms[0].0, v)] + rest)
  }

  /** `PCCapScope.from_dict`: `tool_name` is required, the others default to `{}` and `None`. */
  function ScopeFromDict(d: seq<(string, Json)>): Result<Scope, DecodeError> {
    var tool :- RequiredStr(d, "tool_name");
    var pins :- match Lookup(d, "allowed_args")
      case None => Ok([])
      case Some(JObject(ms)) => DecodePins(ms)
      case Some(_) => Err(WrongType("allowed_args"));
    var prefix :- OptionalStr(d, "path_prefix");
    var maxBytes :- OptionalInt(d, "max_bytes");
    Ok(Scope(tool, pins, prefix, maxBytes))
  }

  lemma {:induction false} DecodePinsRoundTrip(pins: ArgPins)
    ensures DecodePins(MapValues(ScalarJson, pins)) == Ok(pins)
  {
    if pins != [] {
      DecodePinsRoundTrip(pins[1..]);
      assert MapValues(ScalarJson, pins)[1..] == MapValues(ScalarJson, pins[1..]);
      assert [pins[0]] + pins[1..] == pins;
    }
  }

  /** `from_dict(to_dict(s))` gives `s` back. */
  lemma ScopeRoundTrip(s: Scope)
    ensures ScopeFromDict(ScopeMembers(s)) == Ok(s)
  {
    var d := ScopeMembers(s);
    DecodePinsRoundTrip(s.allowedArgs);
    assert DistinctKeys(d);
    LookupMember(d, 0);
    LookupMember(d, 1);
    LookupMember(d, 2);
    LookupMember(d, 3);
  }

  /** A dict holding only `tool_name` decodes with no pinned arguments, no prefix and no size limit. */
  lemma ScopeDefaults(tool: string)
    ensures ScopeFromDict([("tool_name", JStr(tool))]) == Ok(Scope(tool, [], None, None))
  {
    var d := [("tool_name", JStr(tool))];
    assert Lookup(d, "allowed_args") == None by {
      assert "tool_name" != "allowed_args";
      assert d[1..] == [];
    }
    assert Lookup(d, "path_prefix") == None by {
      assert "tool_name" != "path_prefix";
      assert d[1..] == [];
    }
    assert Lookup(d, "max_bytes") == None by {
      assert "tool_name" != "max_bytes";
      assert d[1..] == [];
    }
  }

  /** Without `tool_name` nothing decodes. */
  lemma ScopeNeedsToolName(d: seq<(string, Json)>)
    requires Lookup(d, "tool_name") == None
    ensures ScopeFromDict(d) == Err(MissingKey("tool_name"))
  {
  }

  /** `from_dict` reads the dict only through its four keys. */
  lemma ScopeFromDictByLookup(d: seq<(string, Json)>, d': seq<(string, Json)>)
    requires forall k :: k in ["tool_name", "allowed_args", "path_prefix", "max_bytes"] ==> Lookup(d, k) == Lookup(d', k)
    ensures ScopeFromDict(d) == ScopeFromDict(d')
  {
    assert Lookup(d, "tool_name") == Lookup(d', "tool_name");
    assert Lookup(d, "allowed_args") == Lookup(d', "allowed_args");
    assert Lookup(d, "path_prefix") == Lookup(d', "path_prefix");
    assert Lookup(d, "max_bytes") == Lookup(d', "max_bytes");
  }

  /** The same scope with its pinned arguments in key order: what the canonical text fixes. */
  function SortedPins(s: Scope): Scope {
    s.(allowedArgs := SortByKey(s.allowedArgs))
  }

  lemma ScalarsAreCanonical(pins: ArgPins)
    ensures MapValues(Canon, MapValues(ScalarJson, pins)) == MapValues(ScalarJson, pins)
  {
  }

  /** The canonical form of a scope's dict is the dict of the scope with sorted pins, members sorted. */
  lemma CanonScopeDict(s: Scope)
    ensures Canon(ScopeToDict(s)) == JObject(SortByKey(ScopeMembers(SortedPins(s))))
  {
    var d := ScopeToDict(s);
    var args := JObject(MapValues(ScalarJson, s.allowedArgs));
    RenderIsMapValues(d, ScopeMembers(s));
    RenderIsMapValues(args, MapValues(ScalarJson, s.allowedArgs));
    ScalarsAreCanonical(s.allowedArgs);
    SortCommutes(ScalarJson, s.allowedArgs);
    assert Canon(args) == JObject(MapValues(ScalarJson, SortByKey(s.allowedArgs)));
    assert MapValues(Canon, ScopeMembers(s)) == ScopeMembers(SortedPins(s));
  }

  /** Decoding the canonical form of a scope's dict gives the scope back, pins in key order. */
  lemma DecodeCanonScope(s: Scope)
    ensures Canon(ScopeToDict(s)).JObject?
    ensures ScopeFromDict(Canon(ScopeToDict(s)).members) == Ok(SortedPins(s))
  {
    CanonScopeDict(s);
    var ms := ScopeMembers(SortedPins(s));
    assert DistinctKeys(ms);
    forall k | k in ["tool_name", "allowed_args", "path_prefix", "max_bytes"]
      ensures Lookup(SortByKey(ms), k) == Lookup(ms, k)
    {
      LookupSorted(ms, k);
    }
    ScopeFromDictByLookup(SortByKey(ms), ms);
    ScopeRoundTrip(SortedPins(s));
  }
}
