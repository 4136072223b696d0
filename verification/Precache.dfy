/** Which build files the service worker fetches at install and which later (vite.config.ts, generateBundle). */
module Precache {
  import opened Options
  import opened Text
  import opened TextWords
  import Sorting

  datatype Output =
    | Chunk(imports: seq<string>, isEntry: bool, facadeModuleId: Option<string>)
    | Asset(size: nat)

  /** The bundle: outputs by file name, and the order Object.values lists them in. */
  datatype Bundle = Bundle(outputs: map<string, Output>, order: seq<string>)

  ghost predicate ValidBundle(b: Bundle) {
    && (forall f :: f in b.order <==> f in b.outputs)
    && forall i, j :: 0 <= i < j < |b.order| ==> b.order[i] != b.order[j]
  }

  const PRECACHE_MAX_ASSET := 256 * 1024

  predicate EndsWith(s: string, suffix: string) {
    |suffix| <= |s| && s[|s| - |suffix|..] == suffix
  }

  /** /\/src\/i18n\/locales\/[a-z]{2}\.ts$/ */
  predicate IsLocaleModule(s: string) {
    |s| >= 5 && EndsWith(s, ".ts") && 'a' <= s[|s| - 4] <= 'z' && 'a' <= s[|s| - 5] <= 'z'
    && EndsWith(s[..|s| - 5], "/src/i18n/locales/")
  }

  predicate IsMedia(file: string) {
    var f := Lower(file);
    EndsWith(f, ".woff") || EndsWith(f, ".woff2") || EndsWith(f, ".ttf") || EndsWith(f, ".otf") || EndsWith(f, ".svg")
    || EndsWith(f, ".png") || EndsWith(f, ".jpg") || EndsWith(f, ".jpeg") || EndsWith(f, ".webp") || EndsWith(f, ".ico")
  }

  lemma EndsIn(s: string, suffix: string)
    ensures EndsWith(s, suffix) <==> exists stem :: s == stem + suffix
  {
    if EndsWith(s, suffix) {
      assert s == s[..|s| - |suffix|] + suffix;
    }
  }

  /** A locale's module: its folder, two small letters and `.ts`. */
  lemma LocaleModuleIs(s: string)
    ensures IsLocaleModule(s) <==>
      exists path, a, b :: 'a' <= a <= 'z' && 'a' <= b <= 'z' && s == path + "/src/i18n/locales/" + [a, b] + ".ts"
  {
    if IsLocaleModule(s) {
      var n := |s| - 5;
      var path := s[..n - |"/src/i18n/locales/"|];
      assert s[..n] == path + "/src/i18n/locales/";
      assert s == s[..n] + [s[n], s[n + 1]] + ".ts";
    }
    if path, a, b :| 'a' <= a <= 'z' && 'a' <= b <= 'z' && s == path + "/src/i18n/locales/" + [a, b] + ".ts" {
      assert s[..|s| - 5] == path + "/src/i18n/locales/";
      assert s[|s| - 3..] == ".ts";
    }
  }

  /** The name ends so, in any case. */
  ghost predicate HasExtension(file: string, extension: string) {
    |extension| <= |file| && SameButCase(file[|file| - |extension|..], extension)
  }

  lemma {:induction false} LowerTail(s: string, n: nat)
    requires n <= |s|
    ensures Lower(s)[n..] == Lower(s[n..])
  {
    if n < |s| {
      LowerTail(s[..|s| - 1], n);
      assert s[n..][..|s| - n - 1] == s[..|s| - 1][n..];
    }
  }

  lemma ExtensionIs(file: string, extension: string)
    requires forall i :: 0 <= i < |extension| ==> !('A' <= extension[i] <= 'Z')
    ensures EndsWith(Lower(file), extension) <==> HasExtension(file, extension)
  {
    hide Lower, SameButCase;
    if |extension| <= |file| {
      LowerTail(file, |file| - |extension|);
      WordRead(file[|file| - |extension|..], extension);
    }
  }

  lemma MediaIs(file: string)
    ensures IsMedia(file) <==>
      exists e :: e in [".woff", ".woff2", ".ttf", ".otf", ".svg", ".png", ".jpg", ".jpeg", ".webp", ".ico"]
               && HasExtension(file, e)
  {
    hide Lower, EndsWith, HasExtension;
    var all := [".woff", ".woff2", ".ttf", ".otf", ".svg", ".png", ".jpg", ".jpeg", ".webp", ".ico"];
    forall i | 0 <= i < |all|
      ensures EndsWith(Lower(file), all[i]) <==> HasExtension(file, all[i])
    {
      ExtensionIs(file, all[i]);
    }
    assert IsMedia(file) <==> exists i :: 0 <= i < |all| && EndsWith(Lower(file), all[i]) by { MediaOf(file); }
    if i :| 0 <= i < |all| && HasExtension(file, all[i]) {
      assert all[i] in all;
    }
  }

  lemma MediaOf(file: string)
    ensures var all := [".woff", ".woff2", ".ttf", ".otf", ".svg", ".png", ".jpg", ".jpeg", ".webp", ".ico"];
      IsMedia(file) <==> exists i :: 0 <= i < |all| && EndsWith(Lower(file), all[i])
  {
    hide Lower, EndsWith;
    var all := [".woff", ".woff2", ".ttf", ".otf", ".svg", ".png", ".jpg", ".jpeg", ".webp", ".ico"];
    assert all[0] == ".woff" && all[1] == ".woff2" && all[2] == ".ttf" && all[3] == ".otf" && all[4] == ".svg";
    assert all[5] == ".png" && all[6] == ".jpg" && all[7] == ".jpeg" && all[8] == ".webp" && all[9] == ".ico";
  }

  predicate IsChunk(b: Bundle, f: string) {
    f in b.outputs && b.outputs[f].Chunk?
  }

  function Chunks(b: Bundle): set<string> {
    set f | f in b.outputs && b.outputs[f].Chunk?
  }

  predicate IsLocale(facade: Option<string>) {
    facade.Some? && IsLocaleModule(facade.value)
  }

  /** An entry, or a locale file. */
  predicate IsRoot(b: Bundle, f: string) {
    IsChunk(b, f) && (b.outputs[f].isEntry || IsLocale(b.outputs[f].facadeModuleId))
  }

  predicate Imports(b: Bundle, f: string, g: string) {
    IsChunk(b, f) && IsChunk(b, g) && g in b.outputs[f].imports
  }

  ghost predicate IsPath(b: Bundle, path: seq<string>) {
    path != [] && IsChunk(b, path[0]) && forall i :: 0 <= i < |path| - 1 ==> Imports(b, path[i], path[i + 1])
  }

  /** Static imports lead from `f` to `g`. */
  ghost predicate Reaches(b: Bundle, f: string, g: string) {
    exists path :: IsPath(b, path) && path[0] == f && path[|path| - 1] == g
  }

  /** What any screen needs to start: the chunks static imports reach from an entry or a locale file. */
  ghost predicate IsCore(b: Bundle, g: string) {
    exists f :: IsRoot(b, f) && Reaches(b, f, g)
  }

  ghost predicate ClosedUnder(b: Bundle, core: set<string>, some: set<string>) {
    forall f, g :: f in some && Imports(b, f, g) ==> g in core
  }

  lemma ReachesItself(b: Bundle, f: string)
    requires IsChunk(b, f)
    ensures Reaches(b, f, f)
  {
    assert IsPath(b, [f]);
  }

  lemma ReachesThrough(b: Bundle, f: string, g: string, h: string)
    requires Imports(b, f, g) && Reaches(b, g, h)
    ensures Reaches(b, f, h)
  {
    var path :| IsPath(b, path) && path[0] == g && path[|path| - 1] == h;
    assert IsPath(b, [f] + path);
  }

  /** A set closed under imports holds all that its members reach. */
  lemma {:induction false} ClosedHoldsPath(b: Bundle, core: set<string>, path: seq<string>)
    requires ClosedUnder(b, core, core) && IsPath(b, path) && path[0] in core
    ensures path[|path| - 1] in core
  {
    if |path| > 1 {
      assert Imports(b, path[0], path[1]);
      ClosedHoldsPath(b, core, path[1..]);
    }
  }

  function TextLe(a: string, c: string): bool {
    if a == [] then true else if c == [] then false else a[0] < c[0] || (a[0] == c[0] && TextLe(a[1..], c[1..]))
  }

  function ByText(): (string, string) -> bool {
    (a: string, c: string) => TextLe(a, c)
  }

  /** A proper beginning of it, or smaller where they first differ. */
  ghost predicate InTextOrder(a: string, c: string) {
    a <= c || exists k :: 0 <= k < |a| && k < |c| && a[..k] == c[..k] && a[k] < c[k]
  }

  lemma {:induction false} TextLeOrder(a: string, c: string)
    ensures TextLe(a, c) || TextLe(c, a)
    ensures TextLe(a, c) ==> InTextOrder(a, c)
  {
    if a != [] && c != [] {
      assert a == [a[0]] + a[1..] && c == [c[0]] + c[1..];
      if a[0] == c[0] {
        TextLeOrder(a[1..], c[1..]);
        if TextLe(a, c) && !(a[1..] <= c[1..]) {
          var k :| 0 <= k < |a[1..]| && k < |c[1..]| && a[1..][..k] == c[1..][..k] && a[1..][k] < c[1..][k];
          assert a[..k + 1] == [a[0]] + a[1..][..k] && c[..k + 1] == [c[0]] + c[1..][..k];
        }
      } else {
        assert a[..0] == c[..0];
      }
    }
  }

  lemma {:induction false} TextLeTransitive(a: string, c: string, e: string)
    requires TextLe(a, c) && TextLe(c, e)
    ensures TextLe(a, e)
  {
    if a != [] && c != [] && e != [] && a[0] == c[0] == e[0] {
      TextLeTransitive(a[1..], c[1..], e[1..]);
    }
  }

  lemma ByTextIsOrder()
    ensures Sorting.IsOrder(ByText())
  {
    forall a: string, c: string
      ensures ByText()(a, c) || ByText()(c, a)
    {
      TextLeOrder(a, c);
    }
    forall a: string, c: string, e: string | ByText()(a, c) && ByText()(c, e)
      ensures ByText()(a, e)
    {
      TextLeTransitive(a, c, e);
    }
  }

  /** The lists are sorted as text. */
  lemma SortedAsText(s: seq<string>)
    ensures var r := Sorting.Sort(ByText(), s); forall i, j :: 0 <= i < j < |r| ==> InTextOrder(r[i], r[j])
  {
    hide InTextOrder, TextLe;
    var r := Sorting.Sort(ByText(), s);
    ByTextIsOrder();
    Sorting.SortSorts(ByText(), s);
    forall i, j | 0 <= i < j < |r|
      ensures InTextOrder(r[i], r[j])
    {
      assert ByText()(r[i], r[j]);
      TextLeOrder(r[i], r[j]);
    }
  }

  function Url(f: string): string {
    "/" + f
  }

  predicate Precached(b: Bundle, core: set<string>, f: string)
    requires f in b.outputs
  {
    if b.outputs[f].Chunk? then f in core
    else EndsWith(f, ".css") || (IsMedia(f) && b.outputs[f].size <= PRECACHE_MAX_ASSET)
  }

  predicate Deferred(b: Bundle, core: set<string>, f: string)
    requires f in b.outputs
  {
    b.outputs[f].Chunk? && f !in core
  }

  /** The files of `order` fetched at install, as URLs. */
  function InstallUrls(b: Bundle, core: set<string>, order: seq<string>): seq<string>
    requires forall f :: f in order ==> f in b.outputs
  {
    if order == [] then []
    else
      var f := order[|order| - 1];
      InstallUrls(b, core, order[..|order| - 1]) + if Precached(b, core, f) then [Url(f)] else []
  }

  /** The chunks of `order` fetched later. */
  function LaterUrls(b: Bundle, core: set<string>, order: seq<string>): seq<string>
    requires forall f :: f in order ==> f in b.outputs
  {
    if order == [] then []
    else
      var f := order[|order| - 1];
      LaterUrls(b, core, order[..|order| - 1]) + if Deferred(b, core, f) then [Url(f)] else []
  }

  class PwaBuild {
    const bundle: Bundle
    var core: set<string>

    constructor (bundle: Bundle)
      ensures this.bundle == bundle && core == {}
    {
      this.bundle := bundle;
      core := {};
    }

    /** Adds a chunk and what it imports; import cycles end at a chunk already there. */
    method AddWithImports(fileName: string)
      requires core <= Chunks(bundle)
      modifies this`core
      ensures old(core) <= core <= Chunks(bundle)
      ensures IsChunk(bundle, fileName) ==> fileName in core
      ensures forall g :: g in core - old(core) ==> Reaches(bundle, fileName, g)
      ensures ClosedUnder(bundle, core, core - old(core))
      decreases Chunks(bundle) - core
    {
      if fileName in core {
        return;
      }
      if fileName !in bundle.outputs || !bundle.outputs[fileName].Chunk? {
        return;
      }
      core := core + {fileName};
      ReachesItself(bundle, fileName);
      var imports := bundle.outputs[fileName].imports;
      for i := 0 to |imports|
        invariant old(core) + {fileName} <= core <= Chunks(bundle)
        invariant forall g :: g in core - old(core) ==> Reaches(bundle, fileName, g)
        invariant ClosedUnder(bundle, core, core - old(core) - {fileName})
        invariant forall g :: g in imports[..i] && IsChunk(bundle, g) ==> g in core
      {
        ghost var before := core;
        AddWithImports(imports[i]);
        forall g | g in core - before
          ensures Reaches(bundle, fileName, g)
        {
          ReachesChunk(bundle, imports[i], g);
          ReachesThrough(bundle, fileName, imports[i], g);
        }
        assert imports[..i + 1] == imports[..i] + [imports[i]];
      }
      assert imports[..|imports|] == imports;
    }

    method CollectCore()
      requires ValidBundle(bundle) && core == {}
      modifies this`core
      ensures forall g :: g in core <==> IsCore(bundle, g)
      ensures Starts(bundle, core) && forall some :: Starts(bundle, some) ==> core <= some
    {
      var order := bundle.order;
      for i := 0 to |order|
        invariant core <= Chunks(bundle) && ClosedUnder(bundle, core, core)
        invariant forall g :: g in core ==> IsCore(bundle, g)
        invariant forall f :: f in order[..i] && IsRoot(bundle, f) ==> f in core
      {
        hide Reaches, IsLocaleModule;
        var output := bundle.outputs[order[i]];
        assert order[..i + 1] == order[..i] + [order[i]];
        if !output.Chunk? {
          continue;
        }
        if output.isEntry || (output.facadeModuleId.Some? && IsLocaleModule(output.facadeModuleId.value)) {
          AddWithImports(order[i]);
          assert IsRoot(bundle, order[i]);
        }
      }
      assert order[..|order|] == order;
      ClosedHoldsCore(bundle, core);
      forall some
        ensures Starts(bundle, core) && (Starts(bundle, some) ==> core <= some)
      {
        CoreIsLeast(bundle, core, some);
      }
    }

    method ListUrls() returns (urls: seq<string>, lazyUrls: seq<string>)
      requires ValidBundle(bundle)
      ensures urls == ["/", "/index.html"] + InstallUrls(bundle, core, bundle.order)
      ensures lazyUrls == LaterUrls(bundle, core, bundle.order)
    {
      hide Url, IsMedia, EndsWith;
      var order := bundle.order;
      ghost var first: seq<string> := ["/", "/index.html"];
      urls, lazyUrls := ["/", "/index.html"], [];
      for i := 0 to |order|
        invariant urls == first + InstallUrls(bundle, core, order[..i])
        invariant lazyUrls == LaterUrls(bundle, core, order[..i])
      {
        var f := order[i];
        assert order[..i + 1][..i] == order[..i];
        if bundle.outputs[f].Chunk? {
          if f in core {
            urls := urls + [Url(f)];
          } else {
            lazyUrls := lazyUrls + [Url(f)];
          }
        } else if EndsWith(f, ".css") {
          urls := urls + [Url(f)];
        } else if IsMedia(f) {
          if bundle.outputs[f].size <= PRECACHE_MAX_ASSET {
            urls := urls + [Url(f)];
          }
        }
      }
      assert order[..|order|] == order;
    }

    /** The core, then the two lists: every chunk in one of them, beside the page itself, the stylesheets and
        the small media files. */
    method GenerateBundle() returns (urls: seq<string>, lazyUrls: seq<string>)
      requires ValidBundle(bundle) && core == {}
      modifies this`core
      ensures forall g :: g in core <==> IsCore(bundle, g)
      ensures urls == Sorting.Sort(ByText(), ["/", "/index.html"] + InstallUrls(bundle, core, bundle.order))
      ensures lazyUrls == Sorting.Sort(ByText(), LaterUrls(bundle, core, bundle.order))
      ensures forall i, j :: 0 <= i < j < |urls| ==> InTextOrder(urls[i], urls[j])
      ensures forall i, j :: 0 <= i < j < |lazyUrls| ==> InTextOrder(lazyUrls[i], lazyUrls[j])
    {
      hide InTextOrder, TextLe;
      CollectCore();
      urls, lazyUrls := ListUrls();
      SortedAsText(urls);
      SortedAsText(lazyUrls);
      urls := Sorting.Sort(ByText(), urls);
      lazyUrls := Sorting.Sort(ByText(), lazyUrls);
    }
  }

  lemma ClosedHoldsCore(b: Bundle, core: set<string>)
    requires ClosedUnder(b, core, core) && forall f :: IsRoot(b, f) ==> f in core
    ensures forall g :: IsCore(b, g) ==> g in core
  {
    forall g | IsCore(b, g)
      ensures g in core
    {
      var f :| IsRoot(b, f) && Reaches(b, f, g);
      var path :| IsPath(b, path) && path[0] == f && path[|path| - 1] == g;
      ClosedHoldsPath(b, core, path);
    }
  }

  lemma ReachesChunk(b: Bundle, f: string, g: string)
    requires Reaches(b, f, g)
    ensures IsChunk(b, f)
  {
    var path :| IsPath(b, path) && path[0] == f && path[|path| - 1] == g;
  }

  /** A set of files with every entry and every locale file's chunk, and with the chunks its own chunks import. */
  ghost predicate Starts(b: Bundle, some: set<string>) {
    forall f :: f in b.outputs && b.outputs[f].Chunk? ==>
      && (b.outputs[f].isEntry ==> f in some)
      && (b.outputs[f].facadeModuleId.Some? && IsLocaleModule(b.outputs[f].facadeModuleId.value) ==> f in some)
      && (f in some ==>
            forall g :: g in b.outputs[f].imports && g in b.outputs && b.outputs[g].Chunk? ==> g in some)
  }

  lemma CoreStarts(b: Bundle, core: set<string>)
    requires forall g :: g in core <==> IsCore(b, g)
    ensures Starts(b, core)
  {
    hide IsLocaleModule, Reaches;
    forall f | f in b.outputs && b.outputs[f].Chunk?
      ensures IsRoot(b, f) ==> f in core
      ensures f in core ==> forall g :: g in b.outputs[f].imports && g in b.outputs && b.outputs[g].Chunk? ==> g in core
    {
      ReachesItself(b, f);
      forall g | f in core && Imports(b, f, g)
        ensures g in core
      {
        CoreImports(b, f, g);
      }
    }
  }

  lemma CoreImports(b: Bundle, f: string, g: string)
    requires IsCore(b, f) && Imports(b, f, g)
    ensures IsCore(b, g)
  {
    hide IsLocaleModule;
    var root :| IsRoot(b, root) && Reaches(b, root, f);
    var path :| IsPath(b, path) && path[0] == root && path[|path| - 1] == f;
    var longer := path + [g];
    forall i | 0 <= i < |longer| - 1
      ensures Imports(b, longer[i], longer[i + 1])
    {
      if i < |path| - 1 {
        assert longer[i] == path[i] && longer[i + 1] == path[i + 1];
      }
    }
    assert IsPath(b, longer);
  }

  lemma StartsHold(b: Bundle, some: set<string>, g: string)
    requires Starts(b, some) && IsCore(b, g)
    ensures g in some
  {
    hide IsLocaleModule;
    assert ClosedUnder(b, some, some);
    var f :| IsRoot(b, f) && Reaches(b, f, g);
    var path :| IsPath(b, path) && path[0] == f && path[|path| - 1] == g;
    ClosedHoldsPath(b, some, path);
  }

  /** The core is the least such set: what any screen needs and nothing more. */
  lemma CoreIsLeast(b: Bundle, core: set<string>, some: set<string>)
    requires forall g :: g in core <==> IsCore(b, g)
    ensures Starts(b, core)
    ensures Starts(b, some) ==> core <= some
  {
    hide IsCore, Starts;
    CoreStarts(b, core);
    if Starts(b, some) {
      forall g | g in core
        ensures g in some
      {
        StartsHold(b, some, g);
      }
    }
  }

  // ----- the partition

  lemma CountStep(s: seq<string>, x: string, y: string)
    ensures multiset(s + [x])[y] == multiset(s)[y] + if x == y then 1 else 0
  {
  }

  lemma {:induction false} CountInstall(b: Bundle, core: set<string>, order: seq<string>, f: string)
    requires (forall g :: g in order ==> g in b.outputs) && forall i, j :: 0 <= i < j < |order| ==> order[i] != order[j]
    ensures multiset(InstallUrls(b, core, order))[Url(f)] == if f in order && Precached(b, core, f) then 1 else 0
  {
    hide Url, Precached;
    if order == [] {
      assert InstallUrls(b, core, order) == [];
    } else {
      var front, g := order[..|order| - 1], order[|order| - 1];
      var some := InstallUrls(b, core, front);
      CountInstall(b, core, front, f);
      assert f in order <==> f in front || f == g by { assert order == front + [g]; }
      UrlOnce(f, g);
      NoRepeat(order);
      CountStep(some, Url(g), Url(f));
      assert some + [] == some;
    }
  }

  lemma {:induction false} CountLater(b: Bundle, core: set<string>, order: seq<string>, f: string)
    requires (forall g :: g in order ==> g in b.outputs) && forall i, j :: 0 <= i < j < |order| ==> order[i] != order[j]
    ensures multiset(LaterUrls(b, core, order))[Url(f)] == if f in order && Deferred(b, core, f) then 1 else 0
  {
    hide Url, Deferred;
    if order == [] {
      assert LaterUrls(b, core, order) == [];
    } else {
      var front, g := order[..|order| - 1], order[|order| - 1];
      var some := LaterUrls(b, core, front);
      CountLater(b, core, front, f);
      assert f in order <==> f in front || f == g by { assert order == front + [g]; }
      UrlOnce(f, g);
      NoRepeat(order);
      CountStep(some, Url(g), Url(f));
      assert some + [] == some;
    }
  }

  lemma NoRepeat(order: seq<string>)
    requires order != [] && forall i, j :: 0 <= i < j < |order| ==> order[i] != order[j]
    ensures order[|order| - 1] !in order[..|order| - 1]
  {
  }

  lemma UrlOnce(f: string, g: string)
    ensures Url(f) == Url(g) ==> f == g
  {
    assert Url(f)[1..] == f && Url(g)[1..] == g;
  }

  /** The page itself is listed first, under two URLs. */
  function PageUrls(f: string): nat {
    if f == "" || f == "index.html" then 1 else 0
  }

  lemma PageCount(f: string)
    ensures multiset(["/", "/index.html"])[Url(f)] == PageUrls(f)
  {
    assert Url(f)[1..] == f && "/"[1..] == "" && "/index.html"[1..] == "index.html";
    assert f == "" ==> Url(f) == "/";
    assert f == "index.html" ==> Url(f) == "/index.html";
    assert multiset(["/", "/index.html"]) == multiset{"/", "/index.html"};
  }

  lemma InstallCount(b: Bundle, core: set<string>, urls: seq<string>, f: string)
    requires ValidBundle(b) && f in b.outputs
    requires urls == Sorting.Sort(ByText(), ["/", "/index.html"] + InstallUrls(b, core, b.order))
    ensures multiset(urls)[Url(f)] == PageUrls(f) + if Precached(b, core, f) then 1 else 0
  {
    hide Url, Precached, PageUrls;
    CountInstall(b, core, b.order, f);
    PageCount(f);
    var page, install := ["/", "/index.html"], InstallUrls(b, core, b.order);
    assert multiset(page + install)[Url(f)] == multiset(page)[Url(f)] + multiset(install)[Url(f)];
  }

  lemma LaterCount(b: Bundle, core: set<string>, lazyUrls: seq<string>, f: string)
    requires ValidBundle(b) && f in b.outputs
    requires lazyUrls == Sorting.Sort(ByText(), LaterUrls(b, core, b.order))
    ensures multiset(lazyUrls)[Url(f)] == if Deferred(b, core, f) then 1 else 0
  {
    hide Url, Deferred;
    CountLater(b, core, b.order, f);
  }

  /** Every chunk is listed exactly once, at install when static imports reach it from an entry or a locale file, later
      otherwise; beside the page's own entry, should a chunk have the page's name. */
  lemma EachChunkOnce(b: Bundle, core: set<string>, urls: seq<string>, lazyUrls: seq<string>, f: string)
    requires ValidBundle(b) && forall g :: g in core <==> IsCore(b, g)
    requires urls == Sorting.Sort(ByText(), ["/", "/index.html"] + InstallUrls(b, core, b.order))
    requires lazyUrls == Sorting.Sort(ByText(), LaterUrls(b, core, b.order))
    requires IsChunk(b, f)
    ensures multiset(urls)["/" + f] == PageUrls(f) + if IsCore(b, f) then 1 else 0
    ensures multiset(lazyUrls)["/" + f] == if IsCore(b, f) then 0 else 1
  {
    hide PageUrls, InstallUrls, LaterUrls, IsCore;
    InstallCount(b, core, urls, f);
    LaterCount(b, core, lazyUrls, f);
  }

  /** A style sheet, or a font or picture of at most 256 KiB. */
  ghost predicate Fetched(f: string, size: nat) {
    || (exists stem :: f == stem + ".css")
    || (size <= 262_144
        && exists e :: e in [".woff", ".woff2", ".ttf", ".otf", ".svg", ".png", ".jpg", ".jpeg", ".webp", ".ico"]
                    && HasExtension(f, e))
  }

  /** Such a file is fetched at install; no other asset is listed. */
  lemma EachAssetOnce(b: Bundle, core: set<string>, urls: seq<string>, lazyUrls: seq<string>, f: string)
    requires ValidBundle(b)
    requires urls == Sorting.Sort(ByText(), ["/", "/index.html"] + InstallUrls(b, core, b.order))
    requires lazyUrls == Sorting.Sort(ByText(), LaterUrls(b, core, b.order))
    requires f in b.outputs && b.outputs[f].Asset?
    ensures multiset(urls)["/" + f] == PageUrls(f) + if Fetched(f, b.outputs[f].size) then 1 else 0
    ensures multiset(lazyUrls)["/" + f] == 0
  {
    hide PageUrls, InstallUrls, LaterUrls, IsMedia, EndsWith, HasExtension;
    EndsIn(f, ".css");
    MediaIs(f);
    InstallCount(b, core, urls, f);
    LaterCount(b, core, lazyUrls, f);
  }

  /** The URL of a file of the bundle. */
  ghost predicate NamesOutput(b: Bundle, u: string) {
    exists f :: f in b.outputs && u == "/" + f
  }

  lemma {:induction false} ListedAreOutputs(b: Bundle, core: set<string>, order: seq<string>)
    requires forall f :: f in order ==> f in b.outputs
    ensures forall u :: u in InstallUrls(b, core, order) ==> NamesOutput(b, u)
    ensures forall u :: u in LaterUrls(b, core, order) ==> NamesOutput(b, u)
  {
    hide Precached, Deferred;
    if order != [] {
      ListedAreOutputs(b, core, order[..|order| - 1]);
      assert NamesOutput(b, Url(order[|order| - 1]));
    }
  }

  /** Every URL of the two lists is the page's or a file of the bundle. */
  lemma NothingElseListed(b: Bundle, core: set<string>, urls: seq<string>, lazyUrls: seq<string>, u: string)
    requires ValidBundle(b)
    requires urls == Sorting.Sort(ByText(), ["/", "/index.html"] + InstallUrls(b, core, b.order))
    requires lazyUrls == Sorting.Sort(ByText(), LaterUrls(b, core, b.order))
    requires u in urls || u in lazyUrls
    ensures u == "/" || u == "/index.html" || NamesOutput(b, u)
  {
    hide Url, NamesOutput, InstallUrls, LaterUrls;
    ListedAreOutputs(b, core, b.order);
    if u in urls {
      Sorting.SortKeepsMembers(ByText(), ["/", "/index.html"] + InstallUrls(b, core, b.order));
    } else {
      Sorting.SortKeepsMembers(ByText(), LaterUrls(b, core, b.order));
    }
  }
}
