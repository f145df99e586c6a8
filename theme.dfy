/** The theme registry: a light/dark mode string, initialised from local
    storage, toggled by the user and mirrored back into storage. */
module Theme {
  import opened Wrappers
  import opened Storage

  /** The storage key under which the mode is kept. */
  const ThemeKey := "themeMode"
  const Light := "light"
  const Dark := "dark"

  /** The two palettes the provider can hand to the styling library. */
  datatype Palette = LightPalette | DarkPalette

  /** The lazy initial state: the stored string when it is non-empty (any such
      string, not only "light" or "dark"), otherwise "light". Reading is not
      guarded, so a throwing read escapes the provider. */
  function InitialMode(read: StoreRead): (r: Completion<string>)
    ensures r.Throws? <==> read.ReadThrew?
    ensures read.Item? && read.value != "" ==> r == Normal(read.value)
    ensures (read.NoItem? || read == Item("")) ==> r == Normal(Light)
    ensures r.Normal? ==> r.value != ""
  {
    match read
    case Item(stored) => if stored != "" then Normal(stored) else Normal(Light)
    case NoItem => Normal(Light)
    case ReadThrew => Throws
  }

  /** The updater of `toggleTheme`: "light" becomes "dark", every other mode,
      recognised or not, becomes "light". */
  function Toggled(mode: string): (r: string)
    ensures r == Dark <==> mode == Light
    ensures r == Light || r == Dark
    ensures r != mode
  {
    if mode == Light then Dark else Light
  }

  /** The palette chosen for `mode`: the light one exactly when the mode is
      "light", the dark one for everything else. */
  function PaletteFor(mode: string): (p: Palette)
    ensures p == LightPalette <==> mode == Light
  {
    if mode == Light then LightPalette else DarkPalette
  }

  /** The mode after `n` toggles. */
  function ToggledTimes(mode: string, n: nat): string
  {
    if n == 0 then mode else Toggled(ToggledTimes(mode, n - 1))
  }

  /** From "light" or "dark", toggling twice gives the mode back. */
  lemma {:induction false} ToggleTwice(mode: string)
    requires mode == Light || mode == Dark
    ensures Toggled(Toggled(mode)) == mode
  {
  }

  /** After at least one toggle the mode is "light" or "dark"; from one of
      those two, `n` toggles return to the start exactly when `n` is even. */
  lemma {:induction false} ToggledTimesParity(mode: string, n: nat)
    ensures n > 0 ==> ToggledTimes(mode, n) == Light || ToggledTimes(mode, n) == Dark
    ensures (mode == Light || mode == Dark) ==> (ToggledTimes(mode, n) == mode <==> n % 2 == 0)
  {
    if n > 1 {
      ToggledTimesParity(mode, n - 2);
      assert ToggledTimes(mode, n) == Toggled(Toggled(ToggledTimes(mode, n - 2)));
    }
  }

  /** A stored mode is read back unchanged on the next start. */
  lemma {:induction false} SaveThenLoad(items: map<string, string>, mode: string)
    requires mode != ""
    ensures InitialMode(Lookup(Written(items, true, ThemeKey, mode), true, ThemeKey)) == Normal(mode)
  {
  }

  /** The registry: the `mode` state slot and the effect that stores it.
      Neither the read nor the write is guarded, so a failing write is
      reported to the caller as an exception that escapes. */
  class ThemeRegistry {
    var mode: string
    const store: LocalStore

    /** Every mode the registry can hold is non-empty, so storing it is never
        mistaken for "no mode stored". */
    ghost predicate Valid()
      reads this
    {
      mode != ""
    }

    /** The lazy initial state. */
    constructor (store: LocalStore)
      requires store.readable
      ensures this.store == store && Valid()
      ensures Normal(mode) == InitialMode(store.GetItem(ThemeKey))
    {
      this.store := store;
      mode := InitialMode(store.GetItem(ThemeKey)).value;
    }

    /** The effect: `setItem("themeMode", mode)`; it runs on mount and after
        every change of mode. */
    method PersistMode() returns (threw: bool)
      requires Valid()
      modifies store
      ensures threw == !store.writable
      ensures store.readable == old(store.readable) && store.writable == old(store.writable)
      ensures store.items == Written(old(store.items), store.writable, ThemeKey, mode)
      ensures store.readable && !threw ==> InitialMode(store.GetItem(ThemeKey)) == Normal(mode)
    {
      threw := store.SetItem(ThemeKey, mode);
    }

    /** `toggleTheme()` followed by the effect. Toggling always changes the
        mode, so the effect always runs. */
    method Toggle() returns (threw: bool)
      requires Valid()
      modifies this, store
      ensures Valid() && mode == Toggled(old(mode))
      ensures mode == Light || mode == Dark
      ensures threw == !store.writable
      ensures store.readable == old(store.readable) && store.writable == old(store.writable)
      ensures store.items == Written(old(store.items), store.writable, ThemeKey, mode)
    {
      mode := Toggled(mode);
      threw := PersistMode();
    }
  }
}
