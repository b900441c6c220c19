/**
 * The theme provider (src/context/ThemeContext.js): a stored preference
 * ('system', 'light', 'dark' or whatever was saved), resolved against the
 * operating system's colour scheme.
 */
module ThemeContext {
  import opened Wrappers

  /** `Colors.light` / `Colors.dark`. */
  datatype Palette = LightPalette | DarkPalette

  /** `isDark`: 'system' follows the OS scheme (None when it reports none), any
      other setting is dark only when it is 'dark'. */
  function IsDark(theme: string, systemScheme: Option<string>): (dark: bool)
    ensures theme == "system" ==> (dark <==> systemScheme == Some("dark"))
    ensures theme != "system" ==> (dark <==> theme == "dark")
  {
    if theme == "system" then systemScheme == Some("dark") else theme == "dark"
  }

  /** `colors`. */
  function ColorsFor(theme: string, systemScheme: Option<string>): (p: Palette)
    ensures p == DarkPalette <==> IsDark(theme, systemScheme)
  {
    if IsDark(theme, systemScheme) then DarkPalette else LightPalette
  }

  /** The theme after `loadTheme` starting from `current`: a non-empty saved value
      replaces it; nothing saved, an empty value or a failed read keeps it. */
  function LoadedTheme(current: string, saved: Option<string>, readOk: bool): (t: string)
    ensures readOk && saved.Some? && saved.value != "" ==> t == saved.value
    ensures !readOk || saved.None? || saved.value == "" ==> t == current
  {
    if readOk && saved.Some? && saved.value != "" then saved.value else current
  }

  /** A theme set successfully is the one the next start loads, except the empty
      string, which the next start reads as "nothing saved" and so shows 'system'. */
  lemma SetThenRestart(newTheme: string)
    ensures newTheme != "" ==> LoadedTheme("system", Some(newTheme), true) == newTheme
    ensures newTheme == "" ==> LoadedTheme("system", Some(newTheme), true) == "system"
    ensures newTheme == "" ==> !IsDark(newTheme, Some("dark")) && IsDark("system", Some("dark"))
  {}

  class ThemeProvider {
    var theme: string
    var isLoaded: bool
    /** The value under the theme key of the key-value store. */
    var saved: Option<string>

    constructor (initialSaved: Option<string>)
      ensures theme == "system" && !isLoaded && saved == initialSaved
    {
      theme := "system";
      isLoaded := false;
      saved := initialSaved;
    }

    /** The `loadTheme` effect: `readOk` is false when `getItem` throws. */
    method LoadTheme(readOk: bool)
      modifies this
      ensures isLoaded && saved == old(saved)
      ensures theme == LoadedTheme(old(theme), saved, readOk)
    {
      if readOk && saved.Some? && saved.value != "" {
        theme := saved.value;
      }
      isLoaded := true;
    }

    /** `setTheme(newTheme)`: the state changes only after the write succeeds. */
    method SetTheme(newTheme: string, writeOk: bool)
      modifies this
      ensures isLoaded == old(isLoaded)
      ensures writeOk ==> theme == newTheme && saved == Some(newTheme)
      ensures !writeOk ==> theme == old(theme) && saved == old(saved)
    {
      if writeOk {
        saved := Some(newTheme);
        theme := newTheme;
      }
    }
  }
}
