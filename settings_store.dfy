/** The settings store (src/stores/settingsStore.ts): mode, theme and D-pad preferences. */
module SettingsStore {
  import opened Types
  import ThemeRegistry
  import ThemeUtils

  class SettingsState {
    var gameMode: GameMode
    var currentTheme: ThemeId
    var showDPad: bool

    /** The defaults: classic mode, the jungle theme, the D-pad shown. */
    constructor ()
      ensures gameMode == Classic && currentTheme == Jungle && showDPad
    {
      gameMode, currentTheme, showDPad := Classic, Jungle, true;
    }

    method SetGameMode(mode: GameMode)
      modifies this`gameMode
      ensures gameMode == mode
    {
      gameMode := mode;
    }

    /** Records the theme and returns the style writes that applying it makes (the DOM itself is not modelled). */
    method SetTheme(themeId: ThemeId) returns (styleWrites: seq<(string, string)>)
      modifies this`currentTheme
      ensures currentTheme == themeId
      ensures styleWrites == ThemeUtils.ThemeVariables(ThemeRegistry.GetTheme(themeId))
    {
      currentTheme := themeId;
      var theme := ThemeRegistry.GetTheme(themeId);
      styleWrites := ThemeUtils.ThemeVariables(theme);
    }

    method ToggleDPad()
      modifies this`showDPad
      ensures showDPad == !old(showDPad)
    {
      showDPad := !showDPad;
    }
  }

  /** Toggling twice restores the original setting and touches nothing else. */
  method ToggleDPadTwice(settings: SettingsState)
    modifies settings`showDPad
    ensures settings.showDPad == old(settings.showDPad)
    ensures settings.gameMode == old(settings.gameMode) && settings.currentTheme == old(settings.currentTheme)
  {
    settings.ToggleDPad();
    settings.ToggleDPad();
  }
}
