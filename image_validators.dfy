/**
 * `validate_image_url`: a URL is an acceptable image link when the extension that
 * `os.path.splitext` finds, lower-cased, is a known image extension, and a HEAD request to it
 * answers with an `image/...` content type. The request itself is not modelled: its outcome
 * is an input, and it is consulted only once the extension test has passed.
 */
module ImageValidators {
  import opened Common

  /** `str.rfind`: the last index of `c` in `s`, or -1. */
  function RFind(s: string, c: char): (i: int)
    ensures -1 <= i < |s|
    ensures i >= 0 ==> s[i] == c
    ensures forall j :: i < j < |s| ==> s[j] != c
  {
    if s == [] then -1
    else if s[|s| - 1] == c then |s| - 1
    else RFind(s[..|s| - 1], c)
  }

  /** Some character of `s[lo..hi]` is not a dot. */
  predicate HasNonDot(s: string, lo: int, hi: int)
    requires 0 <= lo && hi <= |s|
  {
    exists k :: lo <= k < hi && s[k] != '.'
  }

  /**
   * `posixpath.splitext(p)[1]`: from the last '.', provided it comes after the last '/' and
   * the name before it is not only dots; otherwise the empty string.
   */
  function Extension(p: string): (ext: string)
    ensures ext != "" ==> |ext| < |p| && ext == p[|p| - |ext|..] && ext[0] == '.'
    ensures forall i :: 0 < i < |ext| ==> ext[i] != '.' && ext[i] != '/'
    ensures ext != "" <==> RFind(p, '.') > RFind(p, '/') && HasNonDot(p, RFind(p, '/') + 1, RFind(p, '.'))
    ensures ext != "" ==> ext == p[RFind(p, '.')..]
  {
    var sep := RFind(p, '/');
    var dot := RFind(p, '.');
    if dot > sep && HasNonDot(p, sep + 1, dot) then p[dot..] else ""
  }

  const ImageExtensions: set<string> := {".jpg", ".jpeg", ".png", ".gif", ".webp"}

  /**
   * The extension test of `validate_image_url`: passing it means the URL ends, after its last
   * '/', in a dot and three or four more characters that lower-case to a listed extension.
   */
  predicate HasImageExtension(url: string): (b: bool)
    ensures b ==> RFind(url, '.') > RFind(url, '/') && Lower(url[RFind(url, '.')..]) in ImageExtensions
    ensures b ==> 4 <= |url| - RFind(url, '.') <= 5
    ensures Extension(url) == "" ==> !b
  {
    ListedExtensionLength(Lower(Extension(url)));
    Lower(Extension(url)) in ImageExtensions
  }

  /** Every listed extension is a dot and three or four more characters. */
  lemma ListedExtensionLength(e: string)
    ensures e in ImageExtensions ==> 4 <= |e| <= 5
  {
  }

  /** A response header field as received: its name, in whatever case, and its value. */
  type HeaderField = (string, string)

  /**
   * The headers of a `requests` response: a dictionary keyed by the lower-cased field name,
   * so lookups ignore case; a field that repeats has its values joined with ", ".
   */
  function HeaderDict(fields: seq<HeaderField>): (m: map<string, string>)
    ensures forall k :: k in m <==> exists i :: 0 <= i < |fields| && Lower(fields[i].0) == k
    decreases |fields|
  {
    if fields == [] then map[]
    else
      var earlier := fields[..|fields| - 1];
      var m := HeaderDict(earlier);
      var key := Lower(fields[|fields| - 1].0);
      var value := fields[|fields| - 1].1;
      assert fields == earlier + [fields[|fields| - 1]];
      m[key := if key in m then m[key] + ", " + value else value]
  }

  /** The values of the fields whose name lower-cases to `key`, in the order received. */
  function ValuesNamed(fields: seq<HeaderField>, key: string): (vs: seq<string>)
    ensures |vs| <= |fields|
    ensures vs == [] <==> forall i :: 0 <= i < |fields| ==> Lower(fields[i].0) != key
  {
    if fields == [] then []
    else (if Lower(fields[0].0) == key then [fields[0].1] else []) + ValuesNamed(fields[1..], key)
  }

  /** The values separated by ", ". */
  function JoinComma(vs: seq<string>): (joined: string)
    requires vs != []
    ensures |joined| >= |vs[0]| && joined[..|vs[0]|] == vs[0]
  {
    if |vs| == 1 then vs[0] else vs[0] + ", " + JoinComma(vs[1..])
  }

  lemma {:induction false} ValuesNamedSnoc(fields: seq<HeaderField>, f: HeaderField, key: string)
    ensures ValuesNamed(fields + [f], key) == ValuesNamed(fields, key) + (if Lower(f.0) == key then [f.1] else [])
  {
    if fields != [] {
      assert (fields + [f])[1..] == fields[1..] + [f];
      ValuesNamedSnoc(fields[1..], f, key);
    }
  }

  lemma {:induction false} JoinCommaSnoc(vs: seq<string>, v: string)
    requires vs != []
    ensures JoinComma(vs + [v]) == JoinComma(vs) + ", " + v
  {
    if |vs| > 1 {
      assert (vs + [v])[1..] == vs[1..] + [v];
      JoinCommaSnoc(vs[1..], v);
    }
  }

  /**
   * The value stored under a name is the values of all fields of that name, in the order
   * received, joined with ", "; a name that occurs once keeps its value as it is.
   */
  lemma {:induction false} HeaderDictValue(fields: seq<HeaderField>, k: string)
    requires k in HeaderDict(fields)
    ensures ValuesNamed(fields, k) != [] && HeaderDict(fields)[k] == JoinComma(ValuesNamed(fields, k))
    decreases |fields|
  {
    var earlier := fields[..|fields| - 1];
    var last := fields[|fields| - 1];
    assert fields == earlier + [last];
    ValuesNamedSnoc(earlier, last, k);
    var m := HeaderDict(earlier);
    var key := Lower(last.0);
    assert HeaderDict(fields) == m[key := if key in m then m[key] + ", " + last.1 else last.1];
    if key != k {
      HeaderDictValue(earlier, k);
      assert ValuesNamed(fields, k) == ValuesNamed(earlier, k) + [];
      assert ValuesNamed(earlier, k) + [] == ValuesNamed(earlier, k);
    } else if k in m {
      HeaderDictValue(earlier, k);
      JoinCommaSnoc(ValuesNamed(earlier, k), last.1);
      assert HeaderDict(fields)[k] == m[k] + ", " + last.1;
    } else {
      assert ValuesNamed(earlier, k) == [];
      assert ValuesNamed(fields, k) == [last.1];
      assert HeaderDict(fields)[k] == last.1;
    }
  }

  /** What the HEAD request produced: an exception, or a response with its header fields. */
  datatype HeadResult = Unreachable | Response(fields: seq<HeaderField>)

  /** `validate_image_url` raises a ValidationError, raises a KeyError, or returns. */
  datatype UrlVerdict = Accepted | Rejected(msg: string) | MissingContentType

  predicate StartsWith(s: string, prefix: string) {
    |prefix| <= |s| && s[..|prefix|] == prefix
  }

  function ValidateImageUrl(url: string, head: HeadResult): (v: UrlVerdict)
    ensures !HasImageExtension(url) ==> v == Rejected("URL does not have a valid image file extension.")
    ensures v == Accepted <==>
      && HasImageExtension(url)
      && head.Response?
      && "content-type" in HeaderDict(head.fields)
      && StartsWith(HeaderDict(head.fields)["content-type"], "image/")
  {
    if !HasImageExtension(url) then Rejected("URL does not have a valid image file extension.")
    else match head
      case Unreachable => Rejected("Unable to reach the URL.")
      case Response(fields) =>
        var headers := HeaderDict(fields);
        if "content-type" !in headers then MissingContentType
        else if !StartsWith(headers["content-type"], "image/") then Rejected("URL does not point to an image.")
        else Accepted
  }

  /** No request is made for a URL that fails the extension test: the outcome ignores it. */
  lemma ExtensionCheckedBeforeRequest(url: string, h1: HeadResult, h2: HeadResult)
    requires !HasImageExtension(url)
    ensures ValidateImageUrl(url, h1) == ValidateImageUrl(url, h2)
  {
  }

  /**
   * The `KeyError` happens exactly when the response has no Content-Type field under any
   * spelling of its name.
   */
  lemma MissingContentTypeExactly(url: string, fields: seq<HeaderField>)
    ensures ValidateImageUrl(url, Response(fields)) == MissingContentType <==>
      && HasImageExtension(url)
      && forall i :: 0 <= i < |fields| ==> Lower(fields[i].0) != "content-type"
  {
  }

  /** A response with a single Content-Type field, in any case, is judged by that field's value. */
  lemma SingleContentTypeDecides(url: string, fields: seq<HeaderField>, i: nat)
    requires HasImageExtension(url)
    requires i < |fields| && Lower(fields[i].0) == "content-type"
    requires forall j :: 0 <= j < |fields| && j != i ==> Lower(fields[j].0) != "content-type"
    ensures ValidateImageUrl(url, Response(fields)) == Accepted <==> StartsWith(fields[i].1, "image/")
  {
    SingleValueNamed(fields, "content-type", i);
    HeaderDictValue(fields, "content-type");
  }

  lemma {:induction false} SingleValueNamed(fields: seq<HeaderField>, key: string, i: nat)
    requires i < |fields| && Lower(fields[i].0) == key
    requires forall j :: 0 <= j < |fields| && j != i ==> Lower(fields[j].0) != key
    ensures ValuesNamed(fields, key) == [fields[i].1]
  {
    if i > 0 {
      SingleValueNamed(fields[1..], key, i - 1);
    } else {
      assert ValuesNamed(fields[1..], key) == [];
    }
  }

  /** `rfind` over a concatenation whose second part holds the character. */
  lemma {:induction false} RFindAppend(p: string, q: string, c: char)
    requires RFind(q, c) >= 0
    ensures RFind(p + q, c) == |p| + RFind(q, c)
  {
    if q[|q| - 1] != c {
      assert (p + q)[..|p + q| - 1] == p + q[..|q| - 1];
      RFindAppend(p, q[..|q| - 1], c);
    }
  }

  /** `rfind` over a concatenation whose second part lacks the character. */
  lemma {:induction false} RFindAppendMissing(p: string, q: string, c: char)
    requires RFind(q, c) == -1
    ensures RFind(p + q, c) == RFind(p, c)
  {
    if q != [] {
      assert (p + q)[..|p + q| - 1] == p + q[..|q| - 1];
      RFindAppendMissing(p, q[..|q| - 1], c);
    } else {
      assert p + q == p;
    }
  }

  /** Where `rfind` finds the last '/' and the last '.' in `prefix/name.ext`. */
  lemma {:induction false} FileNameSeparators(prefix: string, name: string, ext: string)
    requires forall i :: 0 <= i < |name| ==> name[i] != '.' && name[i] != '/'
    requires forall i :: 0 <= i < |ext| ==> ext[i] != '.' && ext[i] != '/'
    ensures RFind(prefix + "/" + name + "." + ext, '/') == |prefix|
    ensures RFind(prefix + "/" + name + "." + ext, '.') == |prefix| + |name| + 1
  {
    var p := prefix + "/" + name + "." + ext;
    var tail := "/" + name + "." + ext;
    var dotTail := "." + ext;
    assert p == prefix + tail;
    assert tail == ("/" + name) + dotTail;
    assert RFind(ext, '.') == -1;
    assert RFind(ext, '/') == -1;
    RFindAppendMissing(".", ext, '.');
    RFindAppendMissing(".", ext, '/');
    assert RFind(".", '.') == 0;
    assert RFind(".", '/') == -1;
    RFindAppend("/" + name, dotTail, '.');
    RFindAppendMissing("/" + name, dotTail, '/');
    assert RFind(name, '/') == -1;
    RFindAppendMissing("/", name, '/');
    assert RFind("/", '/') == 0;
    RFindAppend(prefix, tail, '.');
    RFindAppend(prefix, tail, '/');
  }

  /**
   * Whatever comes before it, a last path segment `name` + `ext` with a non-empty dot-free
   * `name` and a dot-free `ext` has the extension "." + `ext`.
   */
  lemma ExtensionOfFileName(prefix: string, name: string, ext: string)
    requires name != [] && forall i :: 0 <= i < |name| ==> name[i] != '.' && name[i] != '/'
    requires forall i :: 0 <= i < |ext| ==> ext[i] != '.' && ext[i] != '/'
    ensures Extension(prefix + "/" + name + "." + ext) == "." + ext
  {
    var p := prefix + "/" + name + "." + ext;
    FileNameSeparators(prefix, name, ext);
    var sep := |prefix|;
    var dot := |prefix| + |name| + 1;
    assert p[sep + 1] == name[0];
    assert HasNonDot(p, sep + 1, dot);
    assert p[dot..] == "." + ext;
  }

  /** The extension test ignores case: "photo.PNG" passes it. */
  lemma UpperCaseExtensionAccepted(prefix: string)
    ensures HasImageExtension(prefix + "/photo.PNG")
  {
    ExtensionOfFileName(prefix, "photo", "PNG");
    assert prefix + "/photo.PNG" == prefix + "/" + "photo" + "." + "PNG";
    assert Lower(".PNG") == ".png";
  }

  /** No image extension holds a '?'. */
  lemma NoQueryMarkInImageExtensions(e: string, k: int)
    requires 0 <= k < |e| && e[k] == '?'
    ensures e !in ImageExtensions
  {
  }

  /**
   * A query string after the extension (a '?' anywhere in the last segment's extension)
   * becomes part of it, so the URL is rejected.
   */
  lemma QueryStringRejected(prefix: string, name: string, ext: string, j: nat)
    requires name != [] && forall i :: 0 <= i < |name| ==> name[i] != '.' && name[i] != '/'
    requires forall i :: 0 <= i < |ext| ==> ext[i] != '.' && ext[i] != '/'
    requires j < |ext| && ext[j] == '?'
    ensures !HasImageExtension(prefix + "/" + name + "." + ext)
  {
    ExtensionOfFileName(prefix, name, ext);
    QueryMarkExtensionRejected(ext, j);
  }

  /** An extension holding a '?' is no image extension, whatever its case. */
  lemma QueryMarkExtensionRejected(ext: string, j: nat)
    requires j < |ext| && ext[j] == '?'
    ensures Lower("." + ext) !in ImageExtensions
  {
    var low := Lower("." + ext);
    assert low[j + 1] == '?';
    NoQueryMarkInImageExtensions(low, j + 1);
  }

  /** A last segment without a dot has no extension, so the URL is rejected. */
  lemma NoExtensionRejected(prefix: string, name: string)
    requires forall i :: 0 <= i < |name| ==> name[i] != '.' && name[i] != '/'
    ensures Extension(prefix + "/" + name) == ""
    ensures !HasImageExtension(prefix + "/" + name)
  {
    var tail := "/" + name;
    assert RFind(name, '/') == -1 && RFind(name, '.') == -1;
    RFindAppendMissing("/", name, '/');
    RFindAppendMissing("/", name, '.');
    assert RFind("/", '/') == 0 && RFind("/", '.') == -1;
    RFindAppend(prefix, tail, '/');
    var p := prefix + tail;
    var dot := RFind(p, '.');
    assert dot < |prefix|;
    assert prefix + "/" + name == p;
    assert Lower("") == "";
  }
}
