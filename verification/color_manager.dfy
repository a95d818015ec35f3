/** `src/colorManager.ts`: the current-colour map and the favourites list of the colour
    store. The store starts out as the `DEFAULT_COLORS` object itself, so until a load
    supplies its own map, colour updates write into the default map, and a later load
    without `currentColors` falls back to that same, already updated, map. Reading and
    writing `colors.json` is not modelled: a load is an optional parsed file, `None`
    standing for a read or parse failure. */
module ColorManager {
  import opened Results
  import opened Types

  /** Where the store's current colours live: the shared default map, or a map of its own. */
  datatype Colours = Shared | Own(colours: map<string, string>)

  datatype Manager = Manager(defaultColours: map<string, string>, current: Colours, favorites: seq<Choice>)

  /** The two optional fields of a parsed `colors.json`. */
  datatype Loaded = Loaded(currentColors: Option<map<string, string>>, favoriteColors: Option<seq<Choice>>)

  const DefaultFavorites: seq<Choice> := [
    Choice("Warm White", "#FFE5CC"),
    Choice("Cool White", "#F5F5F5"),
    Choice("Soft White", "#F4EBD9"),
    Choice("Reading", "#FFE0B3"),
    Choice("Relaxing", "#FFD700"),
    Choice("Evening", "#FFA07A")
  ]

  /** The store as constructed: it is `DEFAULT_COLORS`, with no current colours. */
  function Fresh(): (m: Manager)
    ensures m.current.Shared? && m.defaultColours == map[] && |m.favorites| == 6
  {
    Manager(map[], Shared, DefaultFavorites)
  }

  /** The map `colorState.currentColors` denotes. */
  function CurrentColors(m: Manager): map<string, string>
  {
    match m.current
    case Shared => m.defaultColours
    case Own(c) => c
  }

  /** `init`: each field of the parsed file, or the default for a missing one; after a failed
      read the store is left as it was. */
  function Init(m: Manager, file: Option<Loaded>): (r: Manager)
    ensures file.None? ==> r == m
    ensures file.Some? && file.value.currentColors.Some? ==> CurrentColors(r) == file.value.currentColors.value
    ensures file.Some? && file.value.currentColors.None? ==> CurrentColors(r) == m.defaultColours
    ensures file.Some? && file.value.favoriteColors.Some? ==> r.favorites == file.value.favoriteColors.value
    ensures file.Some? && file.value.favoriteColors.None? ==> r.favorites == DefaultFavorites
    ensures r.defaultColours == m.defaultColours
  {
    match file
    case None => m
    case Some(p) =>
      Manager(
        m.defaultColours,
        if p.currentColors.Some? then Own(p.currentColors.value) else Shared,
        if p.favoriteColors.Some? then p.favoriteColors.value else DefaultFavorites)
  }

  function GetCurrentColor(m: Manager, name: string): (c: Option<string>)
    ensures c.Some? <==> name in CurrentColors(m)
    ensures c.Some? ==> c.value == CurrentColors(m)[name]
  {
    if name in CurrentColors(m) then Some(CurrentColors(m)[name]) else None
  }

  /** `setCurrentColor`: overwrite this device's key in whichever map the store holds. */
  function SetCurrentColor(m: Manager, name: string, color: string): (r: Manager)
    ensures CurrentColors(r) == CurrentColors(m)[name := color]
    ensures r.favorites == m.favorites
  {
    match m.current
    case Shared => m.(defaultColours := m.defaultColours[name := color])
    case Own(c) => m.(current := Own(c[name := color]))
  }

  function GetFavoriteColors(m: Manager): seq<Choice>
  {
    m.favorites
  }

  // ---------------------------------------------------------------- properties

  /** A colour update is seen by the next read of that device and changes no other read. */
  lemma SetThenGet(m: Manager, name: string, color: string, other: string)
    requires other != name
    ensures GetCurrentColor(SetCurrentColor(m, name, color), name) == Some(color)
    ensures GetCurrentColor(SetCurrentColor(m, name, color), other) == GetCurrentColor(m, other)
    ensures GetFavoriteColors(SetCurrentColor(m, name, color)) == GetFavoriteColors(m)
  {
  }

  /** Because the store starts as the default object, a colour set before loading survives a
      load whose file has no `currentColors`, while a file with its own map replaces it. */
  lemma SharedDefaultKeepsEarlyColours(name: string, color: string, favs: Option<seq<Choice>>, own: map<string, string>)
    requires name !in own
    ensures GetCurrentColor(Init(SetCurrentColor(Fresh(), name, color), Some(Loaded(None, favs))), name) == Some(color)
    ensures GetCurrentColor(Init(SetCurrentColor(Fresh(), name, color), Some(Loaded(Some(own), favs))), name).None?
  {
  }

  /** The six default favourites are what a fresh store or a file without favourites gives. */
  lemma DefaultFavouriteNames()
    ensures |GetFavoriteColors(Fresh())| == 6
    ensures GetFavoriteColors(Init(Fresh(), Some(Loaded(None, None)))) == DefaultFavorites
  {
  }
}
