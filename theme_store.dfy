/** lib/store/themeStore.ts: the persisted light/dark preference. */
module ThemeStore {

  /** The `useThemeStore` state: whether dark mode is on. */
  class ThemeStore {
    var isDark: bool

    /** The initial state is light mode. */
    constructor ()
      ensures !isDark
    {
      isDark := false;
    }

    /** `toggleTheme()`: flips the preference and touches nothing else. */
    method ToggleTheme()
      modifies this`isDark
      ensures isDark == !old(isDark)
    {
      isDark := !isDark;
    }
  }

  /** Toggling twice restores the preference. */
  method ToggleTwice(store: ThemeStore)
    modifies store`isDark
    ensures store.isDark == old(store.isDark)
  {
    store.ToggleTheme();
    store.ToggleTheme();
  }
}
