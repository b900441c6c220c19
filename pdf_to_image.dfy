/**
 * The JavaScript wrapper around the native PDF-to-image module
 * (src/native/PdfToImage.js): argument preparation, the two-shape native call
 * with its retry, and the normalisation of whatever the native side returns into
 * a list of "file://" URIs. The native module, the development mock and
 * `JSON.parse` are parameters.
 */
module PdfToImage {
  import opened Wrappers

  /** A JavaScript value as far as the wrapper inspects it. Numbers are integers here. */
  datatype JsValue =
    | JsUndefined
    | JsNull
    | JsBool(b: bool)
    | JsNumber(n: int)
    | JsString(s: string)
    | JsArray(items: seq<JsValue>)
    | JsObject

  /** JavaScript truthiness. */
  predicate Truthy(v: JsValue)
  {
    match v
    case JsUndefined => false
    case JsNull => false
    case JsBool(b) => b
    case JsNumber(n) => n != 0
    case JsString(s) => s != ""
    case _ => true
  }

  const FilePrefix: string := "file://"

  predicate HasFilePrefix(s: string)
  {
    |s| >= |FilePrefix| && s[..|FilePrefix|] == FilePrefix
  }

  /** Why `convert` rejects. */
  datatype Failure =
    | NativeError(message: string)   // the native call rejected
    | TypeError                      // a method called on a value that lacks it
    | NotInstalled                   // no native module and no mock

  /** What `ensureFileUri(p)` evaluates to. */
  datatype UriResult = NoUri | FileUri(uri: string) | Throws(failure: Failure)

  /** `ensureFileUri(p)`: null for a falsy path, the path itself when it already
      starts with "file://", else the path with that prefix; a truthy non-string
      has no `startsWith` and throws. */
  function EnsureFileUri(p: JsValue): (r: UriResult)
    ensures !Truthy(p) <==> r == NoUri
    ensures r.FileUri? ==> HasFilePrefix(r.uri) && r.uri != ""
    ensures p.JsString? && HasFilePrefix(p.s) ==> r == FileUri(p.s)
    ensures p.JsString? && p.s != "" && !HasFilePrefix(p.s) ==> r == FileUri(FilePrefix + p.s)
    ensures r.Throws? <==> Truthy(p) && !p.JsString?
  {
    if !Truthy(p) then NoUri
    else if !p.JsString? then Throws(TypeError)
    else if HasFilePrefix(p.s) then FileUri(p.s)
    else
      assert (FilePrefix + p.s)[..|FilePrefix|] == FilePrefix;
      FileUri(FilePrefix + p.s)
  }

  /** Normalising a normalised URI gives it back. */
  lemma EnsureFileUriIdempotent(p: JsValue)
    requires EnsureFileUri(p).FileUri?
    ensures EnsureFileUri(JsString(EnsureFileUri(p).uri)) == EnsureFileUri(p)
  {}

  /** `images.map(ensureFileUri).filter(Boolean)`: None when some entry throws. */
  function Normalized(images: seq<JsValue>): (r: Option<seq<string>>)
    ensures r.None? <==> exists k | 0 <= k < |images| :: EnsureFileUri(images[k]).Throws?
    ensures r.Some? ==> |r.value| <= |images| && forall k | 0 <= k < |r.value| :: HasFilePrefix(r.value[k])
  {
    if images == [] then Some([])
    else
      var head := EnsureFileUri(images[0]);
      var rest := Normalized(images[1..]);
      assert forall k | 1 <= k < |images| :: images[k] == images[1..][k - 1];
      if head.Throws? || rest.None? then None
      else if head.NoUri? then rest
      else Some([head.uri] + rest.value)
  }

  /** Normalisation works entry by entry, so it preserves the order of the list. */
  lemma {:induction false} NormalizedAppend(a: seq<JsValue>, b: seq<JsValue>)
    ensures Normalized(a + b).Some? <==> Normalized(a).Some? && Normalized(b).Some?
    ensures Normalized(a + b).Some? ==> Normalized(a + b).value == Normalized(a).value + Normalized(b).value
  {
    if a == [] {
      assert a + b == b;
    } else {
      assert (a + b)[1..] == a[1..] + b;
      NormalizedAppend(a[1..], b);
    }
  }

  /** A list of "file://" URIs normalises to itself. */
  lemma {:induction false} NormalizedFileUris(uris: seq<string>)
    requires forall k | 0 <= k < |uris| :: HasFilePrefix(uris[k])
    ensures Normalized(seq(|uris|, k requires 0 <= k < |uris| => JsString(uris[k]))) == Some(uris)
  {
    var values := seq(|uris|, k requires 0 <= k < |uris| => JsString(uris[k]));
    if uris != [] {
      assert values[1..] == seq(|uris[1..]|, k requires 0 <= k < |uris[1..]| => JsString(uris[1..][k]));
      NormalizedFileUris(uris[1..]);
      assert uris == [uris[0]] + uris[1..];
    }
  }

  /** What `images` holds after the flattening: a list, or a value without `map`. */
  datatype Images = List(values: seq<JsValue>) | NotAList

  /** The flattening of a native result: an array is kept, a string becomes its
      parsed value (`parsed`, None when `JSON.parse` throws) or a singleton, any
      other truthy value a singleton, a falsy one the empty list. */
  function RawImages(result: JsValue, parsed: Option<JsValue>): (r: Images)
    ensures result.JsArray? ==> r == List(result.items)
    ensures result.JsString? && parsed.None? ==> r == List([result])
    ensures result.JsString? && parsed.Some? ==>
              r == if parsed.value.JsArray? then List(parsed.value.items) else NotAList
    ensures !result.JsArray? && !result.JsString? ==> r == if Truthy(result) then List([result]) else List([])
  {
    match result
    case JsArray(items) => List(items)
    case JsString(_) =>
      if parsed.None? then List([result])
      else if parsed.value.JsArray? then List(parsed.value.items)
      else NotAList
    case _ => if Truthy(result) then List([result]) else List([])
  }

  /** What one native call does: reject, or resolve to a value (with `JSON.parse`'s
      reading of it when it is a string). */
  datatype NativeOutcome = Rejects(message: string) | Resolves(value: JsValue, parsed: Option<JsValue>)

  /** The outcome of one attempt: the URI list, or why it threw. */
  datatype Attempted<T> = Ok(value: T) | Err(failure: Failure)

  /** One attempt of the `try` blocks: the call, the flattening and the normalisation. */
  function Attempt(call: NativeOutcome): (r: Attempted<seq<string>>)
    ensures call.Rejects? ==> r == Err(NativeError(call.message))
    ensures r.Ok? ==> forall k | 0 <= k < |r.value| :: HasFilePrefix(r.value[k])
  {
    match call
    case Rejects(message) => Err(NativeError(message))
    case Resolves(value, parsed) =>
      match RawImages(value, parsed)
      case NotAList => Err(TypeError)
      case List(values) =>
        var normalized := Normalized(values);
        if normalized.Some? then Ok(normalized.value) else Err(TypeError)
  }

  /** `Number(options?.maxDim) || 0`, for a number or a string of decimal digits;
      anything else that `Number` maps to NaN, or a 0, gives 0 (the native default).
      `Number` reads an array through its string form: the empty array is "" and so
      0, an array of two or more items holds a comma and is NaN, and a one-item
      array reads as its item, except that "true" and "false" are NaN. */
  function MaxDim(option: JsValue): (d: int)
    ensures option.JsUndefined? || option.JsNull? || option.JsObject? ==> d == 0
    ensures option.JsNumber? ==> d == option.n
    ensures option.JsBool? ==> d == if option.b then 1 else 0
    ensures option.JsString? && AllDigits(option.s) ==> d == DecimalValue(option.s)
    ensures option.JsString? && !AllDigits(option.s) ==> d == 0
    ensures option.JsArray? && |option.items| != 1 ==> d == 0
    ensures option.JsArray? && |option.items| == 1 && option.items[0].JsNumber? ==> d == option.items[0].n
    ensures option.JsArray? && |option.items| == 1 && option.items[0].JsString? ==>
              d == if AllDigits(option.items[0].s) then DecimalValue(option.items[0].s) else 0
  {
    match option
    case JsNumber(n) => n
    case JsBool(b) => if b then 1 else 0
    case JsString(s) => if AllDigits(s) then DecimalValue(s) else 0
    case JsArray(items) => if |items| == 1 && !items[0].JsBool? then MaxDim(items[0]) else 0
    case _ => 0
  }

  predicate AllDigits(s: string)
  {
    forall k | 0 <= k < |s| :: '0' <= s[k] <= '9'
  }

  function DecimalValue(s: string): nat
    requires AllDigits(s)
  {
    if s == [] then 0 else 10 * DecimalValue(s[..|s| - 1]) + (s[|s| - 1] as int - '0' as int)
  }

  /** The Android module's size: the requested one when positive, else 1200. */
  function AppliedMax(maxDim: int): (m: int)
    ensures m > 0
    ensures maxDim > 0 ==> m == maxDim
  {
    if maxDim > 0 then maxDim else 1200
  }

  /** The argument handed to the native call: on Android a leading "file://" is
      removed from a non-empty URI. */
  function NativeArg(uri: string, android: bool): (arg: string)
    ensures android && HasFilePrefix(uri) ==> FilePrefix + arg == uri
    ensures !(android && HasFilePrefix(uri)) ==> arg == uri
  {
    if android && uri != "" && HasFilePrefix(uri) then uri[|FilePrefix|..] else uri
  }

  /** Stripping the prefix for the native side and normalising the stripped path
      gives back the original URI, unless the path itself begins with "file://"
      again (then the doubled prefix is lost). */
  lemma NativeArgRoundTrip(uri: string, android: bool)
    requires HasFilePrefix(uri) && |uri| > |FilePrefix|
    ensures !HasFilePrefix(uri[|FilePrefix|..]) ==> EnsureFileUri(JsString(NativeArg(uri, android))) == FileUri(uri)
    ensures android && HasFilePrefix(uri[|FilePrefix|..]) ==>
              EnsureFileUri(JsString(NativeArg(uri, android))) == FileUri(uri[|FilePrefix|..])
  {
    var arg := NativeArg(uri, android);
    if android {
      assert FilePrefix + arg == uri;
      assert arg == uri[|FilePrefix|..];
    }
  }

  /** What `convert` resolves or rejects with. */
  datatype Converted = Uris(uris: seq<string>) | MockValue(value: JsValue) | Rejected(failure: Failure)

  /** `convert(uri, options)`. `native` is the native module's `convert` when it is
      installed, called as (arg, Some(maxDim)) and, for the retry, (arg, None);
      `mock` is the development mock's `convert`, used only without a native module. */
  function Convert(uri: string, maxDimOption: JsValue, android: bool,
                   native: Option<(string, Option<int>) -> NativeOutcome>,
                   mock: Option<(string, int) -> NativeOutcome>): (r: Converted)
    ensures native.None? && mock.None? ==> r == Rejected(NotInstalled)
    ensures native.Some? ==> r.Uris? || r.Rejected?
    ensures r.Uris? ==> forall k | 0 <= k < |r.uris| :: HasFilePrefix(r.uris[k])
  {
    var maxDim := MaxDim(maxDimOption);
    if native.Some? then
      var arg := NativeArg(uri, android);
      match Attempt(native.value(arg, Some(maxDim)))
      case Ok(images) => Uris(images)
      case Err(err) =>
        match Attempt(native.value(arg, None))
        case Ok(images) => Uris(images)
        case Err(_) => Rejected(err)
    else if mock.Some? then
      match mock.value(uri, maxDim)
      case Rejects(message) => Rejected(NativeError(message))
      case Resolves(value, _) => MockValue(value)
    else Rejected(NotInstalled)
  }

  /** When both the two-argument call and the retry fail, the first failure is the
      one reported; when the first call succeeds, the retry is never made. */
  lemma RethrowsFirst(uri: string, maxDimOption: JsValue, android: bool,
                      native: (string, Option<int>) -> NativeOutcome,
                      mock: Option<(string, int) -> NativeOutcome>)
    ensures var arg := NativeArg(uri, android);
      var first := Attempt(native(arg, Some(MaxDim(maxDimOption))));
      var retry := Attempt(native(arg, None));
      var r := Convert(uri, maxDimOption, android, Some(native), mock);
      && (first.Ok? ==> r == Uris(first.value))
      && (first.Err? && retry.Ok? ==> r == Uris(retry.value))
      && (first.Err? && retry.Err? ==> r == Rejected(first.failure))
  {}
}
