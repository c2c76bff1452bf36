/**
 * The translation lookup `t(key)`: a dot-separated key is walked through the
 * nested English string table; the key itself is the fallback whenever a
 * segment is missing or the walk ends on a group instead of a string.
 */
module I18n {
  import opened Wrappers
  import opened JsString

  /** A node of the string table: a string, or a group of named entries in declaration order. */
  datatype Entry = Leaf(text: string) | Node(children: seq<(string, Entry)>)

  /** The English table: one group per part of the site. */
  const En: Entry := Node([
    ("header", Header),
    ("home", Home),
    ("tools", Tools),
    ("submit", Submit),
    ("newsletter", Newsletter),
    ("footer", Footer)
  ])

  const Header: Entry := Node([
    ("logo", Leaf("Mix Daily")),
    ("menu", HeaderMenu),
    ("cta", Leaf("Add Your Tool")),
    ("searchPlaceholder", Leaf("Search AI tools, image tools, writing tools..."))
  ])

  const HeaderMenu: Entry := Node([
    ("home", Leaf("Home")),
    ("collections", Leaf("Collections")),
    ("categories", Leaf("Categories")),
    ("submit", Leaf("Submit Tool")),
    ("about", Leaf("About"))
  ])

  const Home: Entry := Node([
    ("hero", Node([
      ("headline", Leaf("Discover The Best AI & Digital Tools – Daily")),
      ("subheadline", Leaf("Handpicked collection of 1000+ tools for creators, developers & businesses.")),
      ("searchPlaceholder", Leaf("Search AI tools, image tools, writing tools...")),
      ("ctaPrimary", Leaf("Explore Tools")),
      ("ctaSecondary", Leaf("View Collections"))
    ])),
    ("sections", Node([
      ("featuredCollections", Leaf("Featured Collections")),
      ("categories", Leaf("Browse by Category")),
      ("dailyNew", Leaf("Daily New Tools Added"))
    ]))
  ])

  const Tools: Entry := Node([
    ("visitButton", Leaf("Visit Tool")),
    ("filters", Node([
      ("all", Leaf("All")),
      ("free", Leaf("Free")),
      ("paid", Leaf("Paid")),
      ("popular", Leaf("Popular")),
      ("new", Leaf("New"))
    ])),
    ("sort", Node([
      ("newest", Leaf("Newest")),
      ("popular", Leaf("Most Popular")),
      ("alphabetical", Leaf("Alphabetical"))
    ]))
  ])

  const Submit: Entry := Node([
    ("title", Leaf("Submit Your Tool")),
    ("description", Leaf("Share your tool with our community")),
    ("success", Leaf("Thank you! Your tool has been submitted for review.")),
    ("fields", Node([
      ("name", Leaf("Tool Name")),
      ("iconUrl", Leaf("Icon URL")),
      ("description", Leaf("Description (18-25 words)")),
      ("category", Leaf("Category")),
      ("pricingTag", Leaf("Pricing")),
      ("officialLink", Leaf("Official Website"))
    ])),
    ("button", Leaf("Submit Tool"))
  ])

  const Newsletter: Entry := Node([
    ("title", Leaf("Stay Updated")),
    ("description", Leaf("Get the latest tools delivered to your inbox")),
    ("placeholder", Leaf("Enter your email")),
    ("button", Leaf("Subscribe")),
    ("success", Leaf("Successfully subscribed!")),
    ("privacy", Leaf("We respect your privacy. No spam, unsubscribe anytime."))
  ])

  const Footer: Entry := Node([
    ("disclaimer", Leaf("Mix Daily does not own these tools. All logos, trademarks, and links belong to their respective owners.")),
    ("copyright", Leaf("© 2026. Built with love using")),
    ("caffeineLink", Leaf("caffeine.ai"))
  ])

  /** `group[name]` over the entries of a group: the first entry with that name. */
  function ChildNamed(children: seq<(string, Entry)>, name: string): (r: Option<Entry>)
    ensures r.Some? ==> exists i | 0 <= i < |children| :: children[i] == (name, r.value)
    ensures r.None? <==> forall i | 0 <= i < |children| :: children[i].0 != name
  {
    if children == [] then None
    else if children[0].0 == name then Some(children[0].1)
    else
      var r := ChildNamed(children[1..], name);
      assert forall i | 1 <= i < |children| :: children[i] == children[1..][i - 1];
      r
  }

  /** `value?.[k]` on a table entry: a group's member, and nothing below a string. */
  function Member(value: Entry, name: string): Option<Entry>
  {
    match value
    case Leaf(_) => None
    case Node(children) => ChildNamed(children, name)
  }

  /** The entry reached by following `path` from `root`, or `None` once a segment is missing. */
  function Resolve(root: Entry, path: seq<string>): Option<Entry>
  {
    if path == [] then Some(root)
    else
      match Resolve(root, path[..|path| - 1])
      case None => None
      case Some(value) => Member(value, path[|path| - 1])
  }

  /** What `t(key)` returns when the table is `root`. */
  function Lookup(root: Entry, key: string): string
  {
    match Resolve(root, Split(key, '.'))
    case Some(Leaf(text)) => text
    case _ => key
  }

  /** The walk of `t` over the table `root`: one member access per segment, returning the key as soon as one is missing. */
  method Walk(root: Entry, key: string) returns (r: string)
    ensures r == Lookup(root, key)
  {
    var keys := Split(key, '.');
    var value := root;
    for i := 0 to |keys|
      invariant Resolve(root, keys[..i]) == Some(value)
    {
      assert keys[..i + 1][..i] == keys[..i];
      var next := Member(value, keys[i]);
      if next.None? {
        MissingSegment(root, keys[..i + 1], keys[i + 1..]);
        assert keys[..i + 1] + keys[i + 1..] == keys;
        return key;
      }
      value := next.value;
    }
    assert keys[..|keys|] == keys;
    r := if value.Leaf? then value.text else key;
  }

  /** `t(key)`: the walk over the English table. */
  method Translate(key: string) returns (r: string)
    ensures r == Lookup(En, key)
  {
    r := Walk(En, key);
  }

  // ---------------------------------------------------------------------------
  // Properties
  // ---------------------------------------------------------------------------

  /** Once a segment is missing, no longer path gets through. */
  lemma {:induction false} MissingSegment(root: Entry, path: seq<string>, rest: seq<string>)
    requires Resolve(root, path) == None
    ensures Resolve(root, path + rest) == None
    decreases |rest|
  {
    if rest == [] {
      assert path + rest == path;
    } else {
      var n := |rest| - 1;
      MissingSegment(root, path, rest[..n]);
      assert (path + rest)[..|path + rest| - 1] == path + rest[..n];
    }
  }

  /** Every string stored in the table below `e`. */
  function Leaves(e: Entry): set<string>
  {
    match e
    case Leaf(text) => {text}
    case Node(children) => set i, text | 0 <= i < |children| && text in Leaves(children[i].1) :: text
  }

  /** Whatever a walk reaches lies inside the entry it started from. */
  lemma {:induction false} ResolveStaysInside(root: Entry, path: seq<string>)
    ensures Resolve(root, path).Some? ==> Leaves(Resolve(root, path).value) <= Leaves(root)
    decreases |path|
  {
    if path != [] {
      var init := path[..|path| - 1];
      ResolveStaysInside(root, init);
      var before := Resolve(root, init);
      if before.Some? && before.value.Node? {
        var children := before.value.children;
        var found := ChildNamed(children, path[|path| - 1]);
        if found.Some? {
          var i :| 0 <= i < |children| && children[i] == (path[|path| - 1], found.value);
          assert Leaves(found.value) <= Leaves(before.value) by {
            forall text | text in Leaves(found.value)
              ensures text in Leaves(before.value)
            {
              assert text in Leaves(children[i].1);
            }
          }
        }
      }
    }
  }

  /** `t` returns either the key itself or one of the table's strings; a result other than the key is the string the key's path reaches. */
  lemma LookupResult(root: Entry, key: string)
    ensures Lookup(root, key) == key || Lookup(root, key) in Leaves(root)
    ensures Lookup(root, key) != key ==> Resolve(root, Split(key, '.')) == Some(Leaf(Lookup(root, key)))
  {
    ResolveStaysInside(root, Split(key, '.'));
  }

  /**
   * A key translates to itself when some prefix of its segments already leads nowhere,
   * and when its full path reaches a group rather than a string.
   */
  lemma FallbackToKey(root: Entry, key: string, n: nat)
    requires n <= |Split(key, '.')|
    ensures Resolve(root, Split(key, '.')[..n]).None? ==> Lookup(root, key) == key
    ensures Resolve(root, Split(key, '.')).Some? && Resolve(root, Split(key, '.')).value.Node? ==>
      Lookup(root, key) == key
  {
    var segments := Split(key, '.');
    if Resolve(root, segments[..n]).None? {
      MissingSegment(root, segments[..n], segments[n..]);
      assert segments[..n] + segments[n..] == segments;
    }
  }

  /** The walk from the table's root through `header` and `menu`. */
  lemma HeaderMenuPath()
    ensures Resolve(En, ["header"]) == Some(Header)
    ensures Resolve(En, ["header", "menu"]) == Some(HeaderMenu)
  {
    assert ["header"][..0] == [];
    assert ChildNamed(En.children, "header") == Some(Header);
    assert ["header", "menu"][..1] == ["header"];
    var children := Header.children;
    assert children[0].0 != "menu" by { assert children[0].0[0] == 'l'; }
    assert ChildNamed(children[1..], "menu") == Some(HeaderMenu);
  }

  /** `t('header.menu.home')` is the menu's "Home". */
  lemma HeaderMenuHome()
    ensures Lookup(En, "header.menu.home") == "Home"
  {
    var path := ["header", "menu", "home"];
    HomeKeySegments();
    HeaderMenuPath();
    assert path[..2] == ["header", "menu"];
    assert ChildNamed(HeaderMenu.children, "home") == Some(Leaf("Home"));
  }

  /** The key `header.menu.home` splits into its three segments. */
  lemma HomeKeySegments()
    ensures Split("header.menu.home", '.') == ["header", "menu", "home"]
  {
    var path := ["header", "menu", "home"];
    assert Join(path, ".") == "header.menu.home";
    SplitJoin(path, '.');
  }

  /** `t('header.menu')` reaches a group, so it gives back the key. */
  lemma HeaderMenuIsAGroup()
    ensures Lookup(En, "header.menu") == "header.menu"
  {
    var path := ["header", "menu"];
    assert Join(path, ".") == "header.menu";
    SplitJoin(path, '.');
    HeaderMenuPath();
  }
}
