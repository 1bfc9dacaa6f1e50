/** The theme hook (src/hooks/useTheme.ts): the settings are loaded from
    local storage, and every change is saved and applied to the document
    root as classes and a `data-primary` attribute. Whether the system
    prefers a dark scheme is given as a parameter. */
module UseTheme {
  import opened Storage
  import opened ForumSchema
  import opened AppTypes

  const DefaultTheme: ThemeSettings := ThemeSettings(System, Indigo, Medium, false, Minimal)

  const StorageKey: string := "theme-settings"

  /** The initial state. Unlike the feed preferences this read has no
      `catch`: malformed saved text makes `JSON.parse` throw out of the
      hook. */
  datatype Initialised = Ready(theme: ThemeSettings) | ParseThrows

  function InitialTheme(store: Store<ThemeSettings>): (r: Initialised)
    ensures Load(store, StorageKey).Parsed? ==> r == Ready(Load(store, StorageKey).value)
    ensures Load(store, StorageKey).NotSaved? ==> r == Ready(DefaultTheme)
    ensures Load(store, StorageKey).ParseError? ==> r == ParseThrows
  {
    match Load(store, StorageKey)
    case Parsed(v) => Ready(v)
    case NotSaved => Ready(DefaultTheme)
    case ParseError => ParseThrows
  }

  /** The document root: its class list and its attributes. */
  datatype Root = Root(classes: set<string>, attributes: map<string, string>)

  const SizeClasses: set<string> := {"text-sm", "text-base", "text-lg"}

  function SizeClass(size: FontSize): string {
    match size
    case Small => "text-sm"
    case Large => "text-lg"
    case Medium => "text-base"
  }

  function ColorName(c: PrimaryColor): string {
    match c
    case Indigo => "indigo"
    case Blue => "blue"
    case Purple => "purple"
    case Rose => "rose"
    case Emerald => "emerald"
  }

  predicate UsesDark(theme: ThemeSettings, prefersDark: bool) {
    theme.colorScheme == Dark || (theme.colorScheme == System && prefersDark)
  }

  /** The apply part of the effect: `dark` is present exactly when the
      scheme is dark, or system with a dark system preference; exactly one
      font-size class is present (small, large, else base); `data-primary`
      names the primary colour; every other class and attribute stays. */
  function Apply(theme: ThemeSettings, prefersDark: bool, root: Root): (r: Root)
    ensures "dark" in r.classes <==> UsesDark(theme, prefersDark)
    ensures r.classes * SizeClasses == {SizeClass(theme.fontSize)}
    ensures theme.fontSize == Small ==> "text-sm" in r.classes
    ensures theme.fontSize == Large ==> "text-lg" in r.classes
    ensures theme.fontSize == Medium ==> "text-base" in r.classes
    ensures r.classes - SizeClasses - {"dark"} == root.classes - SizeClasses - {"dark"}
    ensures r.attributes == root.attributes["data-primary" := ColorName(theme.primaryColor)]
  {
    var withScheme := if UsesDark(theme, prefersDark) then root.classes + {"dark"} else root.classes - {"dark"};
    var classes := withScheme - SizeClasses + {SizeClass(theme.fontSize)};
    Root(classes, root.attributes["data-primary" := ColorName(theme.primaryColor)])
  }

  datatype Effect = Effect(root: Root, store: Store<ThemeSettings>)

  /** The whole effect: save the theme under 'theme-settings', then apply
      it. */
  function Run(theme: ThemeSettings, prefersDark: bool, root: Root, store: Store<ThemeSettings>): (e: Effect)
    ensures Load(e.store, StorageKey) == Parsed(theme)
    ensures e.root == Apply(theme, prefersDark, root)
  {
    Effect(Apply(theme, prefersDark, root), Save(store, StorageKey, theme))
  }

  /** A reload after the effect starts from the same theme. */
  lemma ReloadRestoresTheme(theme: ThemeSettings, prefersDark: bool, root: Root, store: Store<ThemeSettings>)
    ensures InitialTheme(Run(theme, prefersDark, root, store).store) == Ready(theme)
  {
  }

  /** Applying is idempotent: re-running the effect on its own result
      changes nothing. */
  lemma ApplyIdempotent(theme: ThemeSettings, prefersDark: bool, root: Root)
    ensures Apply(theme, prefersDark, Apply(theme, prefersDark, root)) == Apply(theme, prefersDark, root)
  {
  }
}
