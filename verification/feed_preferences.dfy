/** The feed display preferences (src/hooks/useFeedPreferences.tsx): three
    visibility switches, loaded from and saved to local storage. */
module FeedPreferences {
  import opened Storage
  import opened ForumSchema

  const Defaults: UserPreferences := UserPreferences(System, true, true, true)

  const StorageKey: string := "feedPreferences"

  /** The initial state: the saved preferences when present and
      parseable, else the defaults. */
  function InitialPreferences(store: Store<UserPreferences>): (p: UserPreferences)
    ensures Load(store, StorageKey).Parsed? ==> p == Load(store, StorageKey).value
    ensures !Load(store, StorageKey).Parsed? ==> p == Defaults
  {
    match Load(store, StorageKey)
    case Parsed(v) => v
    case _ => Defaults
  }

  datatype Switch = ContentVisibility | ImageVisibility | VideoVisibility

  /** A toggle negates its own field and keeps every other one. */
  function Toggle(p: UserPreferences, s: Switch): (r: UserPreferences)
    ensures r.theme == p.theme
    ensures r.showContentOnFeed == (if s == ContentVisibility then !p.showContentOnFeed else p.showContentOnFeed)
    ensures r.showImagesOnFeed == (if s == ImageVisibility then !p.showImagesOnFeed else p.showImagesOnFeed)
    ensures r.showVideosOnFeed == (if s == VideoVisibility then !p.showVideosOnFeed else p.showVideosOnFeed)
  {
    match s
    case ContentVisibility => p.(showContentOnFeed := !p.showContentOnFeed)
    case ImageVisibility => p.(showImagesOnFeed := !p.showImagesOnFeed)
    case VideoVisibility => p.(showVideosOnFeed := !p.showVideosOnFeed)
  }

  lemma ToggleTwice(p: UserPreferences, s: Switch)
    ensures Toggle(Toggle(p, s), s) == p
  {
  }

  datatype Hook = Hook(preferences: UserPreferences, store: Store<UserPreferences>)

  /** The save effect after every state change, the first one included:
      the state is written under 'feedPreferences'. */
  function Saved(p: UserPreferences, store: Store<UserPreferences>): (h: Hook)
    ensures h.preferences == p
    ensures Load(h.store, StorageKey) == Parsed(p)
    ensures forall k :: k != StorageKey ==> Load(h.store, k) == Load(store, k)
  {
    Hook(p, Save(store, StorageKey, p))
  }

  function Mount(store: Store<UserPreferences>): Hook {
    Saved(InitialPreferences(store), store)
  }

  function ToggleSaved(h: Hook, s: Switch): Hook {
    Saved(Toggle(h.preferences, s), h.store)
  }

  /** After any toggle a reload starts from the toggled preferences. */
  lemma ReloadSeesLastToggle(h: Hook, s: Switch)
    ensures InitialPreferences(ToggleSaved(h, s).store) == Toggle(h.preferences, s)
  {
  }

  /** A fresh browser starts from the defaults and stores them. */
  lemma FreshStartUsesDefaults()
    ensures Mount(map[]).preferences == Defaults
    ensures Load(Mount(map[]).store, StorageKey) == Parsed(Defaults)
  {
  }
}
