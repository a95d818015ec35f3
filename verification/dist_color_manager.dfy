/** `dist/colorManager.js`: the compiled colour store. Its defaults are written out again in
    the compiled file and checked here against the TypeScript ones; its operations have the
    same logic as `src/colorManager.ts` and are defined through that model. */
module DistColorManager {
  import opened Results
  import opened Types
  import opened ColorManager

  const DistDefaultFavorites: seq<Choice> := [
    Choice("Warm White", "#FFE5CC"),
    Choice("Cool White", "#F5F5F5"),
    Choice("Soft White", "#F4EBD9"),
    Choice("Reading", "#FFE0B3"),
    Choice("Relaxing", "#FFD700"),
    Choice("Evening", "#FFA07A")
  ]

  /** The compiled defaults are the TypeScript defaults. */
  lemma SameDefaults()
    ensures DistDefaultFavorites == DefaultFavorites
    ensures |DistDefaultFavorites| == 6
  {
  }

  /** `init`: the parsed file field by field, the defaults for missing fields. */
  function Init(m: Manager, file: Option<Loaded>): (r: Manager)
    ensures file.None? ==> r == m
    ensures file.Some? ==> CurrentColors(r) == (if file.value.currentColors.Some? then file.value.currentColors.value else m.defaultColours)
    ensures file.Some? ==> r.favorites == (if file.value.favoriteColors.Some? then file.value.favoriteColors.value else DistDefaultFavorites)
  {
    ColorManager.Init(m, file)
  }

  function GetCurrentColor(m: Manager, name: string): (c: Option<string>)
    ensures c.Some? <==> name in CurrentColors(m)
    ensures c.Some? ==> c.value == CurrentColors(m)[name]
  {
    ColorManager.GetCurrentColor(m, name)
  }

  /** `setCurrentColor`: the next read of that device gives the new colour; other reads and the
      favourites are unchanged. */
  function SetCurrentColor(m: Manager, name: string, color: string): (r: Manager)
    ensures GetCurrentColor(r, name) == Some(color)
    ensures forall n :: n != name ==> GetCurrentColor(r, n) == GetCurrentColor(m, n)
    ensures r.favorites == m.favorites
  {
    ColorManager.SetCurrentColor(m, name, color)
  }

  function GetFavoriteColors(m: Manager): seq<Choice>
  {
    m.favorites
  }
}
