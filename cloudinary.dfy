/** The parts of the Cloudinary upload helper that compute what is uploaded and
    which address is handed back: the extension, the resource type, the folder,
    the public id and the final URL. The upload itself is a parameter. */
module Cloudinary {
  import opened Text

  /** A rejected promise or a thrown error carries a message. */
  datatype Outcome<+T> = Done(value: T) | Thrown(message: string)

  const NotEnabledMessage: string := "Cloudinary not enabled"

  datatype ResourceType = Auto | Raw

  /** The extensions uploaded as raw files. */
  const RawExtensions: set<string> := {"pdf", "doc", "docx", "txt", "rtf", "odt"}

  /** `key.toLowerCase().split('.').pop()`: the lowercased text after the last
      dot, or the whole lowercased key when it has no dot. */
  function Extension(key: string): (ext: string)
    ensures '.' !in ext
    ensures EndsWith(Lower(key), ext)
    ensures '.' in Lower(key) ==> |ext| < |key| && Lower(key)[|key| - |ext| - 1] == '.'
    ensures '.' !in Lower(key) ==> ext == Lower(key)
  {
    var parts := Split(Lower(key), '.');
    LastPiece(Lower(key), '.');
    SplitMany(Lower(key), '.');
    parts[|parts| - 1]
  }

  /** The extension of `stem.ext` is `ext` lowercased, whatever the stem holds. */
  lemma ExtensionOfName(stem: string, ext: string)
    requires '.' !in ext
    ensures Extension(stem + "." + ext) == Lower(ext)
  {
    assert Lower(stem + "." + ext) == Lower(stem) + ['.'] + Lower(ext);
    assert '.' !in Lower(ext) by {
      forall i | 0 <= i < |ext|
        ensures Lower(ext)[i] != '.'
      {
        assert ext[i] in ext;
      }
    }
    LastPieceOf(Lower(stem), '.', Lower(ext));
  }

  function ResourceTypeOf(ext: string): (t: ResourceType)
    ensures t == Raw <==> ext in RawExtensions
  {
    if ext in RawExtensions then Raw else Auto
  }

  /** The folder and file name taken from a key of the form `folder/name`. */
  datatype Location = Location(folder: string, filename: string)

  function LocationOf(key: string): Location {
    var parts := Split(key, '/');
    if |parts| > 1 then Location(parts[0], Join(parts[1..], "/"))
    else Location("docs", key)
  }

  /** A key with a slash is cut at its first slash: the folder is what comes
      before it and the file name everything after, further slashes included.
      A key without one goes to `docs` under its own name. */
  lemma LocationSplitsKey(key: string)
    ensures var loc := LocationOf(key);
      && ('/' in key ==> '/' !in loc.folder && key == loc.folder + "/" + loc.filename)
      && ('/' !in key ==> loc == Location("docs", key))
  {
    var parts := Split(key, '/');
    SplitMany(key, '/');
    if |parts| > 1 {
      JoinSplit(key, '/');
      JoinCons(parts[0], parts[1..], "/");
      assert [parts[0]] + parts[1..] == parts;
    }
  }

  /** The regular expression `\.[^/.]+$` matches at `j`: a dot followed by at
      least one character up to the end, none of them a slash or a dot. */
  predicate ExtensionAt(f: string, j: int) {
    && 0 <= j < |f| - 1 && f[j] == '.'
    && forall i :: j < i < |f| ==> f[i] != '/' && f[i] != '.'
  }

  /** The position of the last dot among the first `n` characters, or -1. */
  function LastDotBelow(s: string, n: nat): (k: int)
    requires n <= |s|
    ensures -1 <= k < n
    ensures k >= 0 ==> s[k] == '.'
    ensures forall i :: k < i < n ==> s[i] != '.'
  {
    if n == 0 then -1
    else if s[n - 1] == '.' then n - 1
    else LastDotBelow(s, n - 1)
  }

  /** `filename.replace(/\.[^/.]+$/, '')`: the extension is dropped where the
      pattern matches, and the name is kept whole where it does not. */
  function PublicId(f: string): (r: string)
    ensures forall j :: ExtensionAt(f, j) ==> r == f[..j]
    ensures (forall j :: !ExtensionAt(f, j)) ==> r == f
  {
    var k := LastDotBelow(f, |f|);
    if k >= 0 && k < |f| - 1 && forall i :: k < i < |f| ==> f[i] != '/' then
      assert ExtensionAt(f, k);
      f[..k]
    else
      f
  }

  /** A name with a plain extension loses exactly that extension. */
  lemma PublicIdDropsExtension(stem: string, ext: string)
    requires ext != "" && '/' !in ext && '.' !in ext
    ensures PublicId(stem + "." + ext) == stem
  {
    var f := stem + "." + ext;
    assert forall i :: |stem| < i < |f| ==> f[i] == ext[i - |stem| - 1];
    assert ExtensionAt(f, |stem|);
    assert f[..|stem|] == stem;
  }

  /** What `uploadToCloudinary` passes to the uploader. */
  datatype UploadPlan = UploadPlan(folder: string, resourceType: ResourceType, publicId: string, ext: string)

  /** `uploadToCloudinary` up to the upload: it throws when Cloudinary is not the
      configured store, and otherwise fixes folder, resource type and public id. */
  function PlanUpload(enabled: bool, key: string): (r: Outcome<UploadPlan>)
    ensures !enabled <==> r == Thrown(NotEnabledMessage)
    ensures r.Done? ==>
      && r.value.ext == Extension(key)
      && (r.value.resourceType == Raw <==> Extension(key) in RawExtensions)
      && r.value.folder == LocationOf(key).folder
      && r.value.publicId == PublicId(LocationOf(key).filename)
  {
    if !enabled then Thrown(NotEnabledMessage)
    else
      var ext := Extension(key);
      var loc := LocationOf(key);
      Done(UploadPlan(loc.folder, ResourceTypeOf(ext), PublicId(loc.filename), ext))
  }

  /** The URL with its query string cut off: `url.split('?')[0]`. */
  function WithoutQuery(url: string): (r: string)
    ensures '?' !in url ==> r == url
  {
    assert '?' !in url ==> url[..|url|] == url;
    Split(url, '?')[0]
  }

  /** The address handed back for an upload: a raw file whose extension is
      non-empty gets `.ext` appended unless its address before any query already
      ends with it. */
  function FinalUrl(plan: UploadPlan, secureUrl: string): (url: string)
    ensures plan.resourceType == Raw && plan.ext != "" && !EndsWith(WithoutQuery(secureUrl), "." + plan.ext) ==>
      url == secureUrl + "." + plan.ext
    ensures !(plan.resourceType == Raw && plan.ext != "" && !EndsWith(WithoutQuery(secureUrl), "." + plan.ext)) ==>
      url == secureUrl
  {
    if plan.resourceType == Raw && plan.ext != "" && !EndsWith(WithoutQuery(secureUrl), "." + plan.ext) then
      secureUrl + "." + plan.ext
    else secureUrl
  }

  /** Without a query string, a raw file's final address ends with its
      extension, and a second pass would change nothing. */
  lemma FinalUrlCarriesExtension(plan: UploadPlan, secureUrl: string)
    requires plan.resourceType == Raw && plan.ext != "" && '?' !in secureUrl && '?' !in plan.ext
    ensures EndsWith(FinalUrl(plan, secureUrl), "." + plan.ext)
    ensures FinalUrl(plan, FinalUrl(plan, secureUrl)) == FinalUrl(plan, secureUrl)
  {
    var url := FinalUrl(plan, secureUrl);
    var suffix := "." + plan.ext;
    if !EndsWith(secureUrl, suffix) {
      assert url == secureUrl + suffix;
      assert url[|url| - |suffix|..] == suffix;
      assert '?' !in url by {
        forall i | 0 <= i < |url|
          ensures url[i] != '?'
        {
          if i < |secureUrl| {
            assert url[i] == secureUrl[i];
          } else if i > |secureUrl| {
            assert url[i] == plan.ext[i - |secureUrl| - 1];
          }
        }
      }
    }
  }

  /** The address before the first question mark. */
  lemma WithoutQueryOf(path: string, query: string)
    requires '?' !in path
    ensures WithoutQuery(path + "?" + query) == path
  {
    var url := path + "?" + query;
    assert url == path + ['?'] + query;
    IndexOfPrefix(path, query, '?');
    assert url[..|path|] == path;
  }

  /** With a query string the extension lands after the query, not on the path. */
  lemma FinalUrlAfterQuery(plan: UploadPlan, path: string, query: string)
    requires plan.resourceType == Raw && plan.ext != "" && '?' !in path && !EndsWith(path, "." + plan.ext)
    ensures FinalUrl(plan, path + "?" + query) == path + "?" + query + "." + plan.ext
  {
    WithoutQueryOf(path, query);
  }
}
