/** `src/services/ColorService.ts`: the in-memory saved-state map and the fixed list of
    eight favourite colours. Reading and writing the saved-states file is not modelled: a
    load is an optional map, `None` standing for a read or parse failure. */
module ColorService {
  import opened Results
  import opened Types

  /** One device's saved entry; every field is optional. */
  datatype SavedState = SavedState(color: Option<string>, brightness: Option<int>, colorTemp: Option<int>, power: Option<bool>)

  const EmptyEntry: SavedState := SavedState(None, None, None, None)

  datatype Service = Service(savedStates: map<string, SavedState>, favorites: seq<Choice>)

  const Favorites: seq<Choice> := [
    Choice("Warm White", "#FF8C00"),
    Choice("Cool White", "#F5F5F5"),
    Choice("Soft White", "#FFE4C4"),
    Choice("Reading Light", "#FFF5E1"),
    Choice("Night Light", "#FFB347"),
    Choice("Relaxing", "#B19CD9"),
    Choice("Focus", "#87CEEB"),
    Choice("Energizing", "#98FB98")
  ]

  /** A new service: no saved states, the eight favourites. */
  function Fresh(): (s: Service)
    ensures s.savedStates == map[] && |s.favorites| == 8
  {
    Service(map[], Favorites)
  }

  /** `init`: a loaded map replaces the saved states; a failed load leaves them as they were. */
  function Init(s: Service, loaded: Option<map<string, SavedState>>): (r: Service)
    ensures loaded.None? ==> r == s
    ensures loaded.Some? ==> r.savedStates == loaded.value
    ensures r.favorites == s.favorites
  {
    match loaded
    case None => s
    case Some(m) => s.(savedStates := m)
  }

  /** `savedStates[deviceName]?.color`. */
  function GetCurrentColor(s: Service, name: string): (c: Option<string>)
    ensures name !in s.savedStates ==> c.None?
    ensures name in s.savedStates ==> c == s.savedStates[name].color
  {
    if name in s.savedStates then s.savedStates[name].color else None
  }

  /** `setCurrentColor`: create an empty entry when there is none, then set its colour. */
  function SetCurrentColor(s: Service, name: string, color: string): (r: Service)
    ensures GetCurrentColor(r, name) == Some(color)
    ensures name in r.savedStates
    ensures var before := if name in s.savedStates then s.savedStates[name] else EmptyEntry;
      && r.savedStates[name].brightness == before.brightness
      && r.savedStates[name].colorTemp == before.colorTemp
      && r.savedStates[name].power == before.power
    ensures forall n :: n != name ==> (n in r.savedStates <==> n in s.savedStates)
    ensures forall n :: n != name && n in s.savedStates ==> r.savedStates[n] == s.savedStates[n]
    ensures r.favorites == s.favorites
  {
    var entry := if name in s.savedStates then s.savedStates[name] else EmptyEntry;
    s.(savedStates := s.savedStates[name := entry.(color := Some(color))])
  }

  function GetFavoriteColors(s: Service): seq<Choice>
  {
    s.favorites
  }

  // ---------------------------------------------------------------- properties

  datatype Op = Load(loaded: Option<map<string, SavedState>>) | SetColor(name: string, color: string)

  function Run(s: Service, ops: seq<Op>): Service
    decreases |ops|
  {
    if |ops| == 0 then s
    else
      var next := match ops[0]
        case Load(m) => Init(s, m)
        case SetColor(n, c) => SetCurrentColor(s, n, c);
      Run(next, ops[1..])
  }

  /** No sequence of loads and colour updates changes the favourites list. */
  lemma {:induction false} FavoritesNeverChange(s: Service, ops: seq<Op>)
    ensures GetFavoriteColors(Run(s, ops)) == GetFavoriteColors(s)
    decreases |ops|
  {
    if |ops| > 0 {
      var next := match ops[0]
        case Load(m) => Init(s, m)
        case SetColor(n, c) => SetCurrentColor(s, n, c);
      FavoritesNeverChange(next, ops[1..]);
    }
  }

  /** A colour update is seen by the next read of that device, and by no other device's read. */
  lemma SetThenGet(s: Service, name: string, color: string, other: string)
    requires other != name
    ensures GetCurrentColor(SetCurrentColor(s, name, color), name) == Some(color)
    ensures GetCurrentColor(SetCurrentColor(s, name, color), other) == GetCurrentColor(s, other)
  {
  }

  /** A failed first load leaves the map empty, so every read is undefined. */
  lemma FailedInitIsEmpty(name: string)
    ensures Init(Fresh(), None).savedStates == map[]
    ensures GetCurrentColor(Init(Fresh(), None), name).None?
  {
  }
}
