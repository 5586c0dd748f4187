/** The theme registry (src/themes/index.ts) and the eight palettes it holds. */
module ThemeRegistry {
  import opened Types
  import ThemeUtils

  /** Kept for old saved settings: a copy of the jungle palette that carries the id Jungle. */
  const DEFAULT_THEME: Theme := Theme(Jungle, "Jungle Adventure", ThemeColors(
    "#4CAF50", "#388E3C", "#8BC34A", "#1B5E20", "#2E7D32", "#43A047", "#FFFFFF",
    "#C8E6C9", "#4CAF50", "#66BB6A", "#F44336", "#1B5E20", "#2E7D32"))

  const JUNGLE_THEME: Theme := Theme(Jungle, "Jungle Adventure", ThemeColors(
    "#4CAF50", "#388E3C", "#8BC34A", "#1B5E20", "#2E7D32", "#43A047", "#FFFFFF",
    "#C8E6C9", "#4CAF50", "#66BB6A", "#F44336", "#1B5E20", "#2E7D32"))

  const OCEAN_THEME: Theme := Theme(Ocean, "Ocean Adventure", ThemeColors(
    "#0288D1", "#01579B", "#00ACC1", "#01579B", "#0277BD", "#039BE5", "#FFFFFF",
    "#B3E5FC", "#00ACC1", "#4DD0E1", "#FF8A65", "#01579B", "#0277BD"))

  const SPACE_THEME: Theme := Theme(Space, "Space Adventure", ThemeColors(
    "#7C4DFF", "#6200EA", "#B388FF", "#1A1A2E", "#16213E", "#0F3460", "#FFFFFF",
    "#D1C4E9", "#E040FB", "#B388FF", "#FFD700", "#1A1A2E", "#16213E"))

  const CANDY_THEME: Theme := Theme(Candy, "Candy Land", ThemeColors(
    "#EC407A", "#C2185B", "#F8BBD0", "#FCE4EC", "#F8BBD0", "#F48FB1", "#4A148C",
    "#7B1FA2", "#AB47BC", "#BA68C8", "#FF7043", "#FCE4EC", "#F8BBD0"))

  const NEON_THEME: Theme := Theme(Neon, "Neon Arcade", ThemeColors(
    "#00FFFF", "#00CCCC", "#FF00FF", "#0D0D0D", "#1A1A1A", "#2A2A2A", "#FFFFFF",
    "#CCCCCC", "#39FF14", "#00FF00", "#FF073A", "#0D0D0D", "#1A1A1A"))

  const DESERT_THEME: Theme := Theme(Desert, "Desert Oasis", ThemeColors(
    "#FF8F00", "#E65100", "#FFB74D", "#E65100", "#F57C00", "#FF8F00", "#FFFFFF",
    "#FFCCBC", "#8D6E63", "#6D4C41", "#7CB342", "#E65100", "#F57C00"))

  const WINTER_THEME: Theme := Theme(Winter, "Winter Wonderland", ThemeColors(
    "#42A5F5", "#1E88E5", "#90CAF9", "#E3F2FD", "#BBDEFB", "#90CAF9", "#0D47A1",
    "#1565C0", "#1E88E5", "#1565C0", "#B3E5FC", "#E3F2FD", "#BBDEFB"))

  const THEMES: map<ThemeId, Theme> := map[
    Default := DEFAULT_THEME, Jungle := JUNGLE_THEME, Ocean := OCEAN_THEME, Space := SPACE_THEME,
    Candy := CANDY_THEME, Neon := NEON_THEME, Desert := DESERT_THEME, Winter := WINTER_THEME]

  /** The registry's keys in the order they are declared, which Object.values follows. */
  const THEME_ORDER: seq<ThemeId> := [Default, Jungle, Ocean, Space, Candy, Neon, Desert, Winter]

  /** The registry entry, or the default theme for a key that is missing. */
  function GetTheme(id: ThemeId): Theme {
    if id in THEMES then THEMES[id] else DEFAULT_THEME
  }

  function GetAllThemes(): (r: seq<Theme>)
    ensures |r| == |THEME_ORDER|
  {
    seq(|THEME_ORDER|, i requires 0 <= i < |THEME_ORDER| => THEMES[THEME_ORDER[i]])
  }

  /** Every ThemeId is a key, so the fallback is never taken. */
  lemma RegistryCoversEveryId(id: ThemeId)
    ensures id in THEMES && GetTheme(id) == THEMES[id]
    ensures id in THEME_ORDER
  {
  }

  /** The legacy key resolves to the jungle palette, whose id is Jungle. */
  lemma DefaultIsJungle()
    ensures GetTheme(Default) == GetTheme(Jungle)
    ensures GetTheme(Default).id == Jungle
  {
  }

  lemma RegistryIdsMatchKeys(id: ThemeId)
    requires id != Default
    ensures GetTheme(id).id == id
  {
  }

  lemma AllThemesListsTheRegistry()
    ensures GetAllThemes() == [DEFAULT_THEME, JUNGLE_THEME, OCEAN_THEME, SPACE_THEME,
                               CANDY_THEME, NEON_THEME, DESERT_THEME, WINTER_THEME]
    ensures forall id: ThemeId :: GetTheme(id) in GetAllThemes()
    ensures forall i | 0 <= i < |GetAllThemes()| :: GetAllThemes()[i] == GetTheme(THEME_ORDER[i])
  {
  }

  /** The theme ids of GetAllThemes: Jungle twice, once for the legacy key. */
  lemma AllThemesIds()
    ensures seq(8, i requires 0 <= i < 8 => GetAllThemes()[i].id)
      == [Jungle, Jungle, Ocean, Space, Candy, Neon, Desert, Winter]
  {
  }

  lemma DefaultPaletteIsValid()
    ensures ThemeUtils.PaletteIsValid(DEFAULT_THEME.colors)
  {
    var v := ThemeUtils.ColorValues(DEFAULT_THEME.colors);
    forall i | 0 <= i < |v| ensures ThemeUtils.MatchHexColor(v[i]).Some? {
      ThemeUtils.HashedColourMatches(v[i]);
    }
  }

  lemma JunglePaletteIsValid()
    ensures ThemeUtils.PaletteIsValid(JUNGLE_THEME.colors)
  {
    var v := ThemeUtils.ColorValues(JUNGLE_THEME.colors);
    forall i | 0 <= i < |v| ensures ThemeUtils.MatchHexColor(v[i]).Some? {
      ThemeUtils.HashedColourMatches(v[i]);
    }
  }

  lemma OceanPaletteIsValid()
    ensures ThemeUtils.PaletteIsValid(OCEAN_THEME.colors)
  {
    var v := ThemeUtils.ColorValues(OCEAN_THEME.colors);
    forall i | 0 <= i < |v| ensures ThemeUtils.MatchHexColor(v[i]).Some? {
      ThemeUtils.HashedColourMatches(v[i]);
    }
  }

  lemma SpacePaletteIsValid()
    ensures ThemeUtils.PaletteIsValid(SPACE_THEME.colors)
  {
    var v := ThemeUtils.ColorValues(SPACE_THEME.colors);
    forall i | 0 <= i < |v| ensures ThemeUtils.MatchHexColor(v[i]).Some? {
      ThemeUtils.HashedColourMatches(v[i]);
    }
  }

  lemma CandyPaletteIsValid()
    ensures ThemeUtils.PaletteIsValid(CANDY_THEME.colors)
  {
    var v := ThemeUtils.ColorValues(CANDY_THEME.colors);
    forall i | 0 <= i < |v| ensures ThemeUtils.MatchHexColor(v[i]).Some? {
      ThemeUtils.HashedColourMatches(v[i]);
    }
  }

  lemma NeonPaletteIsValid()
    ensures ThemeUtils.PaletteIsValid(NEON_THEME.colors)
  {
    var v := ThemeUtils.ColorValues(NEON_THEME.colors);
    forall i | 0 <= i < |v| ensures ThemeUtils.MatchHexColor(v[i]).Some? {
      ThemeUtils.HashedColourMatches(v[i]);
    }
  }

  lemma DesertPaletteIsValid()
    ensures ThemeUtils.PaletteIsValid(DESERT_THEME.colors)
  {
    var v := ThemeUtils.ColorValues(DESERT_THEME.colors);
    forall i | 0 <= i < |v| ensures ThemeUtils.MatchHexColor(v[i]).Some? {
      ThemeUtils.HashedColourMatches(v[i]);
    }
  }

  lemma WinterPaletteIsValid()
    ensures ThemeUtils.PaletteIsValid(WINTER_THEME.colors)
  {
    var v := ThemeUtils.ColorValues(WINTER_THEME.colors);
    forall i | 0 <= i < |v| ensures ThemeUtils.MatchHexColor(v[i]).Some? {
      ThemeUtils.HashedColourMatches(v[i]);
    }
  }

  /** Applying any registry theme writes real colours: the black fallback is never used. */
  lemma RegistryPalettesAreValid(id: ThemeId)
    ensures ThemeUtils.PaletteIsValid(GetTheme(id).colors)
  {
    match id
    case Default => DefaultPaletteIsValid();
    case Jungle => JunglePaletteIsValid();
    case Ocean => OceanPaletteIsValid();
    case Space => SpacePaletteIsValid();
    case Candy => CandyPaletteIsValid();
    case Neon => NeonPaletteIsValid();
    case Desert => DesertPaletteIsValid();
    case Winter => WinterPaletteIsValid();
  }
}
