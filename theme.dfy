/**
 * The light/dark theme switcher of static/js/theme-switcher.js: the
 * `document.cookie` lookup `getCookie` (entries `name=value` separated by
 * ';', as in section 5.4 of RFC 6265), `toggleTheme`, `applyTheme` and the
 * page-load initialisation. `localStorage`'s 'theme' item is one optional
 * string, `decodeURIComponent` is the parameter `decode`, and the page's
 * visible state is the body's two theme classes and the icons' class.
 */
module ThemeSwitcher {
  import opened Wrappers
  import opened Text

  /** `cookie.substring(0, name.length + 1) === (name + '=')`. */
  predicate Names(entry: string, name: string) {
    StartsWith(entry, name + "=")
  }

  /** A `split(';')` entry, trimmed, names `name`. */
  predicate EntryNames(entry: string, name: string) {
    Names(Strip(JavaScript, entry), name)
  }

  /** The index of the first entry at or after `from` that names `name` once trimmed. */
  function FirstMatchFrom(entries: seq<string>, name: string, from: nat): (r: Option<nat>)
    requires from <= |entries|
    ensures r.None? <==> forall k :: from <= k < |entries| ==> !EntryNames(entries[k], name)
    ensures r.Some? ==> from <= r.value < |entries| && EntryNames(entries[r.value], name)
    ensures r.Some? ==> forall k :: from <= k < r.value ==> !EntryNames(entries[k], name)
    decreases |entries| - from
  {
    if from == |entries| then None
    else if EntryNames(entries[from], name) then Some(from)
    else FirstMatchFrom(entries, name, from + 1)
  }

  /** The index of the first entry that names `name` once trimmed. */
  function FirstMatch(entries: seq<string>, name: string): (r: Option<nat>)
    ensures r.None? <==> forall k :: 0 <= k < |entries| ==> !EntryNames(entries[k], name)
    ensures r.Some? ==> r.value < |entries| && EntryNames(entries[r.value], name)
    ensures r.Some? ==> forall k :: 0 <= k < r.value ==> !EntryNames(entries[k], name)
  {
    FirstMatchFrom(entries, name, 0)
  }

  /**
   * What `getCookie(name)` returns: None (JavaScript's null) for an empty
   * cookie string or when no entry names `name`; otherwise the decoded
   * remainder of the first entry that does.
   */
  function CookieLookup(cookie: string, name: string, decode: string -> string): (r: Option<string>)
    ensures r.Some? ==>
              cookie != [] && exists k :: 0 <= k < |Split(cookie, ";")| && EntryNames(Split(cookie, ";")[k], name)
    ensures r.None? ==>
              cookie == [] || forall k :: 0 <= k < |Split(cookie, ";")| ==> !EntryNames(Split(cookie, ";")[k], name)
    ensures r.Some? ==>
              var k := FirstMatch(Split(cookie, ";"), name).value;
              r.value == decode(Strip(JavaScript, Split(cookie, ";")[k])[|name| + 1..])
  {
    if cookie == [] then None
    else
      var entries := Split(cookie, ";");
      var m := FirstMatch(entries, name);
      if m.None? then None
      else Some(decode(Strip(JavaScript, entries[m.value])[|name| + 1..]))
  }

  /** The first entry naming `name` is the one every earlier entry fails to name. */
  lemma FirstMatchAt(entries: seq<string>, name: string, i: nat)
    requires i < |entries| && EntryNames(entries[i], name)
    requires forall j :: 0 <= j < i ==> !EntryNames(entries[j], name)
    ensures FirstMatch(entries, name) == Some(i)
  {
    assert FirstMatch(entries, name).Some?;
  }

  /** `getCookie` (lines 42-55): the `for` loop that stops at the first entry naming `name`. */
  method GetCookie(cookie: string, name: string, decode: string -> string) returns (cookieValue: Option<string>)
    ensures cookieValue == CookieLookup(cookie, name, decode)
  {
    cookieValue := None;
    if cookie != [] {
      var cookies := Split(cookie, ";");
      var i := 0;
      while i < |cookies|
        invariant i <= |cookies|
        invariant forall j :: 0 <= j < i ==> !EntryNames(cookies[j], name)
      {
        var entry := Strip(JavaScript, cookies[i]);
        if Names(entry, name) {
          FirstMatchAt(cookies, name, i);
          cookieValue := Some(decode(entry[|name| + 1..]));
          return;
        }
        i := i + 1;
      }
    }
  }

  /** An entry whose name merely starts with `name` does not name it: '=' is part of the test. */
  lemma LongerNameDoesNotMatch(name: string, c: char, rest: string)
    requires c != '='
    ensures !Names(name + [c] + rest, name)
  {
    assert (name + [c] + rest)[|name|] == c;
    assert (name + "=")[|name|] == '=';
  }

  /**
   * A cookie of two entries, the first not naming `name`, the second naming
   * it once trimmed: the lookup returns the second's decoded value.
   */
  lemma SecondEntryFound(first: string, second: string, name: string, decode: string -> string)
    requires ';' !in first && ';' !in second
    requires !EntryNames(first, name) && EntryNames(second, name)
    ensures CookieLookup(first + ";" + second, name, decode)
            == Some(decode(Strip(JavaScript, second)[|name| + 1..]))
  {
    var cookie := first + ";" + second;
    assert cookie == first + [';'] + second;
    SplitAtFirst(first, ';', second);
    SplitWithoutSeparator(second, ';');
    var entries := Split(cookie, ";");
    assert entries == [first, second];
    FirstMatchAt(entries, name, 1);
  }

  /** `csrftokenX=abc` does not name `csrftoken`. */
  lemma CsrfLongerEntry()
    ensures !EntryNames("csrftokenX=abc", "csrftoken")
  {
    var entry, name := "csrftokenX=abc", "csrftoken";
    StripNoEdgeSpace(JavaScript, entry);
    assert entry == name + ['X'] + "=abc";
    LongerNameDoesNotMatch(name, 'X', "=abc");
  }

  /**
   * An entry padded by one space before `name=value` names `name` once
   * trimmed, and what follows the '=' is the value.
   */
  lemma PaddedEntryNames(entry: string, name: string, value: string)
    requires entry == [' '] + name + "=" + value
    requires name != [] && !IsSpace(JavaScript, name[0])
    requires value != [] && !IsSpace(JavaScript, value[|value| - 1])
    ensures EntryNames(entry, name)
    ensures Strip(JavaScript, entry)[|name| + 1..] == value
  {
    var clean := name + "=" + value;
    assert clean[0] == name[0] && clean[|clean| - 1] == value[|value| - 1];
    assert entry == [' '] + clean;
    StripLeadingSpace(JavaScript, ' ', clean);
    assert clean[..|name + "="|] == name + "=";
    assert clean[|name| + 1..] == value;
  }

  /** ` csrftoken=xyz` names `csrftoken` once trimmed, leaving `xyz` after the '='. */
  lemma CsrfPaddedEntry()
    ensures EntryNames(" csrftoken=xyz", "csrftoken")
    ensures Strip(JavaScript, " csrftoken=xyz")[|"csrftoken"| + 1..] == "xyz"
  {
    PaddedEntryNames(" csrftoken=xyz", "csrftoken", "xyz");
  }

  /** Neither example entry holds a ';'. */
  lemma CsrfEntriesUnseparated()
    ensures ';' !in "csrftokenX=abc" && ';' !in " csrftoken=xyz"
  {
    forall k | 0 <= k < |" csrftoken=xyz"|
      ensures " csrftoken=xyz"[k] != ';'
    {
    }
  }

  /** `csrftokenX=abc` is passed over and `csrftoken=xyz` is found. */
  lemma CsrfTokenExample(decode: string -> string)
    ensures CookieLookup("csrftokenX=abc" + ";" + " csrftoken=xyz", "csrftoken", decode) == Some(decode("xyz"))
  {
    CsrfLongerEntry();
    CsrfPaddedEntry();
    CsrfEntriesUnseparated();
    SecondEntryFound("csrftokenX=abc", " csrftoken=xyz", "csrftoken", decode);
  }

  /** `localStorage.getItem('theme') || 'light'`: an absent or empty item counts as light. */
  function StoredTheme(stored: Option<string>): (t: string)
    ensures t != ""
    ensures stored.Some? && stored.value != "" ==> t == stored.value
    ensures stored.None? || stored.value == "" ==> t == "light"
  {
    if stored.Some? && stored.value != "" then stored.value else "light"
  }

  /** The theme `toggleTheme` switches to: dark from light, light from anything else. */
  function Toggled(current: string): (t: string)
    ensures t == "dark" || t == "light"
    ensures t == "dark" <==> current == "light"
  {
    if current == "light" then "dark" else "light"
  }

  /** Toggling twice returns to light or dark, whichever it started from. */
  lemma ToggleTwice(current: string)
    requires current == "light" || current == "dark"
    ensures Toggled(Toggled(current)) == current
  {
  }

  /** After one toggle the theme is light or dark; after two it is back where the first took it from. */
  lemma ToggleSettles(current: string)
    ensures Toggled(Toggled(Toggled(current))) == Toggled(current)
  {
  }

  const SunIcon: string := "fas fa-sun"
  const MoonIcon: string := "fas fa-moon"

  /** The browser-side theme state. */
  class Theme {
    var stored: Option<string>   // localStorage 'theme'
    var darkClass: bool          // body has 'dark-theme'
    var lightClass: bool         // body has 'light-theme'
    var icon: string             // class of every '#theme-icon'
    var posted: seq<string>      // themes sent to '/accounts/update-theme/'

    /** The page shows the stored theme. */
    ghost predicate Shows()
      reads this
    {
      && (darkClass <==> StoredTheme(stored) == "dark")
      && lightClass == !darkClass
      && icon == (if darkClass then SunIcon else MoonIcon)
    }

    constructor (stored: Option<string>)
      ensures this.stored == stored && posted == []
    {
      this.stored := stored;
      darkClass := false;
      lightClass := false;
      icon := "";
      posted := [];
    }

    /**
     * `applyTheme(theme)` (lines 58-76): the dark classes iff the theme is
     * 'dark', and the theme stored as given.
     */
    method Apply(theme: string)
      modifies this
      ensures stored == Some(theme)
      ensures darkClass == (theme == "dark") && lightClass == !darkClass
      ensures icon == (if theme == "dark" then SunIcon else MoonIcon)
      ensures posted == old(posted)
      ensures Shows()
    {
      if theme == "dark" {
        darkClass := true;
        lightClass := false;
        icon := SunIcon;
      } else {
        darkClass := false;
        lightClass := true;
        icon := MoonIcon;
      }
      stored := Some(theme);
    }

    /**
     * `toggleTheme()` (lines 2-40): switches from the stored theme, stores the
     * new one, and posts it to the server when a non-empty CSRF token cookie exists.
     */
    method Toggle(cookie: string, decode: string -> string)
      modifies this
      ensures stored == Some(Toggled(StoredTheme(old(stored))))
      ensures darkClass == (StoredTheme(old(stored)) == "light") && lightClass == !darkClass
      ensures Shows()
      ensures var token := CookieLookup(cookie, "csrftoken", decode);
              posted == old(posted) + (if token.Some? && token.value != "" then [Toggled(StoredTheme(old(stored)))] else [])
    {
      var currentTheme := StoredTheme(stored);
      var newTheme: string;
      if currentTheme == "light" {
        newTheme := "dark";
        darkClass := true;
        lightClass := false;
        icon := SunIcon;
      } else {
        newTheme := "light";
        darkClass := false;
        lightClass := true;
        icon := MoonIcon;
      }
      stored := Some(newTheme);
      var csrftoken := GetCookie(cookie, "csrftoken", decode);
      if csrftoken.Some? && csrftoken.value != "" {
        posted := posted + [newTheme];
      }
    }

    /**
     * The `DOMContentLoaded` handler (lines 107-116): the server's preference
     * (the body's `data-user-theme`) wins and is stored; otherwise the stored
     * theme, or light.
     */
    method Initialize(userTheme: Option<string>)
      modifies this
      ensures userTheme.Some? && userTheme.value != "" ==> stored == userTheme
      ensures userTheme.None? || userTheme.value == "" ==> stored == Some(StoredTheme(old(stored)))
      ensures Shows()
      ensures posted == old(posted)
    {
      var savedTheme: string;
      if userTheme.Some? && userTheme.value != "" {
        savedTheme := userTheme.value;
        stored := Some(savedTheme);
      } else {
        savedTheme := StoredTheme(stored);
      }
      Apply(savedTheme);
    }
  }
}
