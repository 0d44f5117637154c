/**
 * The two small managers of user-facing messages: `LocalizationManager`, which
 * looks a message up in the translation table with a fallback chain and fills in
 * numbered placeholders, and `NotificationManager`, which decides from the
 * configured level whether a notification of a given type is shown.
 *
 * The translation table is the manager's data: it is given to the constructor.
 */
module Messages {
  import opened Wrappers
  import opened Text

  /** message key -> language -> text. */
  type Translations = map<string, map<string, string>>

  /** `translations[key]?.[lang]`, where an empty text counts as missing (it is falsy). */
  function Lookup(translations: Translations, key: string, lang: string): (r: Option<string>)
    ensures r.Some? ==> r.value != ""
    ensures r.Some? <==> key in translations && lang in translations[key] && translations[key][lang] != ""
  {
    if key in translations && lang in translations[key] && translations[key][lang] != "" then
      Some(translations[key][lang])
    else None
  }

  /** The fallback chain of `getString`: the current language, then English, then the fallback, then the key. */
  function Resolve(translations: Translations, lang: string, key: string, fallback: Option<string>): string {
    match Lookup(translations, key, lang)
    case Some(t) => t
    case None =>
      match Lookup(translations, key, "en")
      case Some(t) => t
      case None => if fallback.Some? && fallback.value != "" then fallback.value else key
  }

  /** The placeholder `{index}`. */
  function Placeholder(index: nat): (r: string)
    ensures |r| >= 3 && r[0] == '{' && r[|r| - 1] == '}'
  {
    "{" + NatToString(index) + "}"
  }

  /** `formatString` after the lookup: `{0}`, `{1}`, ... each replaced once, in index order, each in the text so far. */
  function Substitute(text: string, args: seq<string>): string {
    if args == [] then text
    else ReplaceFirst(Substitute(text, args[..|args| - 1]), Placeholder(|args| - 1), args[|args| - 1])
  }

  class LocalizationManager {
    var currentLanguage: string
    var translations: Translations

    /** A fresh manager speaks English. */
    constructor(translations: Translations)
      ensures currentLanguage == "en" && this.translations == translations
    {
      currentLanguage := "en";
      this.translations := translations;
    }

    /** `setLanguage`: any string is accepted; the table is untouched. */
    method SetLanguage(language: string)
      modifies this
      ensures currentLanguage == language && translations == old(translations)
    {
      currentLanguage := language;
    }

    /** `getString`: never empty for a non-empty key, and always one of the four candidates. */
    function GetString(key: string, fallback: Option<string>): (r: string)
      reads this
      ensures key != "" ==> r != ""
      ensures Lookup(translations, key, currentLanguage).Some? ==> r == Lookup(translations, key, currentLanguage).value
      ensures r == key || (fallback.Some? && r == fallback.value) ||
              Lookup(translations, key, currentLanguage) == Some(r) || Lookup(translations, key, "en") == Some(r)
    {
      Resolve(translations, currentLanguage, key, fallback)
    }

    /** `formatString`: the message without a fallback, then one replace per argument. */
    method FormatString(key: string, args: seq<string>) returns (text: string)
      ensures text == Substitute(GetString(key, None), args)
    {
      text := GetString(key, None);
      ghost var start := text;
      for index := 0 to |args|
        invariant text == Substitute(start, args[..index])
      {
        assert args[..index + 1][..index] == args[..index];
        text := ReplaceFirst(text, Placeholder(index), args[index]);
      }
      assert args[..|args|] == args;
    }
  }

  // ---------------------------------------------------------------- lookup properties

  /** English is asked only when the current language has no text, and the fallback only when English has none either. */
  lemma ResolveOrder(translations: Translations, lang: string, key: string, fallback: Option<string>)
    ensures var r := Resolve(translations, lang, key, fallback);
      (Lookup(translations, key, lang).Some? ==> r == Lookup(translations, key, lang).value) &&
      (Lookup(translations, key, lang).None? && Lookup(translations, key, "en").Some? ==> r == Lookup(translations, key, "en").value) &&
      (Lookup(translations, key, lang).None? && Lookup(translations, key, "en").None? ==>
        r == if fallback.Some? && fallback.value != "" then fallback.value else key)
  {
  }

  /** An empty fallback is as good as none: the key is shown. */
  lemma EmptyFallbackGivesKey(translations: Translations, lang: string, key: string)
    requires Lookup(translations, key, lang).None? && Lookup(translations, key, "en").None?
    ensures Resolve(translations, lang, key, Some("")) == key
    ensures Resolve(translations, lang, key, None) == key
  {
  }

  /** An empty translation is skipped in favour of English. */
  lemma EmptyTranslationSkipped(lang: string, key: string, english: string)
    requires english != "" && lang != "en"
    ensures Resolve(map[key := map[lang := "", "en" := english]], lang, key, None) == english
  {
    var t := map[key := map[lang := "", "en" := english]];
    assert t[key][lang] == "";
    assert t[key]["en"] == english;
  }

  // ---------------------------------------------------------------- placeholder properties

  /** A text and arguments without `{` come out unchanged: nothing is inserted but at a placeholder. */
  lemma {:induction false} NoPlaceholdersUnchanged(text: string, args: seq<string>)
    requires '{' !in text
    ensures Substitute(text, args) == text
  {
    if args != [] {
      NoPlaceholdersUnchanged(text, args[..|args| - 1]);
      ReplaceFirstFromNoMatch([], text, Placeholder(|args| - 1), args[|args| - 1]);
    }
  }

  /** Between its braces a placeholder holds only digits. */
  lemma PlaceholderChars(i: nat)
    ensures var q := Placeholder(i);
      q[1..|q| - 1] == NatToString(i) &&
      (forall m :: 0 < m < |q| - 1 ==> '0' <= q[m] <= '9') &&
      (forall m :: 0 < m < |q| ==> q[m] != '{') && '$' !in q
  {
    var q := Placeholder(i);
    assert q[1..|q| - 1] == NatToString(i);
    forall m | 0 < m < |q| - 1 ensures '0' <= q[m] <= '9' {
      assert q[m] == NatToString(i)[m - 1];
    }
  }

  /** Placeholders with different indices are different texts. */
  lemma PlaceholderInjective(i: nat, k: nat)
    requires Placeholder(i) == Placeholder(k)
    ensures i == k
  {
    PlaceholderChars(i);
    PlaceholderChars(k);
    NatToStringInjective(i, k);
  }

  /** A window of `a + {i} + b` that starts anywhere but at the `{` of `{i}` does not start with `{`. */
  lemma WindowOffBrace(a: string, q: string, b: string, j: nat)
    requires '{' !in a && '{' !in b && j < |a + q + b| && j != |a|
    requires forall m :: 0 < m < |q| ==> q[m] != '{'
    ensures (a + q + b)[j] != '{'
  {
    var t := a + q + b;
    if j < |a| {
      assert t[j] == a[j];
    } else if j >= |a| + |q| {
      assert t[j] == b[j - |a| - |q|];
    } else {
      assert t[j] == q[j - |a|];
    }
  }

  /** The window of `a + {i} + b` at the `{` of `{i}` is not `{k}` for another index. */
  lemma WindowAtBrace(a: string, i: nat, b: string, k: nat)
    requires k != i
    requires |a| + |Placeholder(k)| <= |a + Placeholder(i) + b|
    ensures (a + Placeholder(i) + b)[|a|..|a| + |Placeholder(k)|] != Placeholder(k)
  {
    var t, p, q := a + Placeholder(i) + b, Placeholder(k), Placeholder(i);
    PlaceholderChars(i);
    PlaceholderChars(k);
    var w := t[|a|..|a| + |p|];
    if |p| < |q| {
      assert w[|p| - 1] == q[|p| - 1];
    } else if |p| > |q| {
      assert w[|q| - 1] == q[|q| - 1];
    } else {
      assert w == q;
      if p == q {
        PlaceholderInjective(i, k);
      }
    }
  }

  /** In a text whose only `{` opens `{i}`, no other placeholder occurs. */
  lemma PlaceholderAlone(a: string, i: nat, b: string, k: nat)
    requires '{' !in a && '{' !in b && k != i
    ensures !Contains(a + Placeholder(i) + b, Placeholder(k))
  {
    var t, p, q := a + Placeholder(i) + b, Placeholder(k), Placeholder(i);
    PlaceholderChars(i);
    forall j | 0 <= j <= |t| ensures !OccursAt(t, p, j) {
      if j + |p| <= |t| {
        if j == |a| {
          WindowAtBrace(a, i, b, k);
        } else {
          WindowOffBrace(a, q, b, j);
          assert t[j..j + |p|][0] == t[j];
        }
      }
    }
  }

  /** Arguments whose placeholders do not occur leave the text as it is. */
  lemma {:induction false} SubstituteUntouched(text: string, args: seq<string>)
    requires forall k :: 0 <= k < |args| ==> !Contains(text, Placeholder(k))
    ensures Substitute(text, args) == text
  {
    if args != [] {
      var n := |args| - 1;
      SubstituteUntouched(text, args[..n]);
      ReplaceFirstNone([], text, Placeholder(n), args[n]);
    }
  }

  /** A text whose only placeholder is `{i}` gets `args[i]` in its place and is otherwise kept. */
  lemma {:induction false} SubstituteOne(a: string, i: nat, b: string, args: seq<string>)
    requires '{' !in a && '{' !in b && i < |args| && '{' !in args[i] && '$' !in args[i]
    ensures Substitute(a + Placeholder(i) + b, args) == a + args[i] + b
  {
    var n := |args| - 1;
    var text := a + Placeholder(i) + b;
    if i < n {
      assert args[..n][i] == args[i];
      SubstituteOne(a, i, b, args[..n]);
      var mid := a + args[i] + b;
      assert '{' !in mid;
      ReplaceFirstFromNoMatch([], mid, Placeholder(n), args[n]);
    } else {
      forall k | 0 <= k < n ensures !Contains(text, Placeholder(k)) {
        PlaceholderAlone(a, i, b, k);
      }
      SubstituteUntouched(text, args[..n]);
      FirstCharAbsent(a, Placeholder(i));
      ReplaceFirstSplit([], a, Placeholder(i), b, args[i]);
      ExpandPlain(args[i], Placeholder(i), [] + a, b);
    }
  }

  /** Only the first occurrence of a placeholder is filled in: a later `{0}` in the text is kept. */
  lemma FirstOccurrenceOnly(a: string, b: string, x: string)
    requires '{' !in a && '$' !in x
    ensures Substitute(a + Placeholder(0) + b, [x]) == a + x + b
  {
    var text := a + Placeholder(0) + b;
    assert [x][..0] == [];
    assert Substitute(text, []) == text;
    FirstCharAbsent(a, Placeholder(0));
    ReplaceFirstSplit([], a, Placeholder(0), b, x);
    ExpandPlain(x, Placeholder(0), [] + a, b);
  }

  /** An argument that holds a later placeholder has that placeholder filled in as well. */
  lemma LaterPlaceholderInArgument(a: string, b: string, c: string, d: string, y: string)
    requires '{' !in a && '{' !in c && '$' !in c && '$' !in d && '$' !in y
    ensures Substitute(a + Placeholder(0) + b, [c + Placeholder(1) + d, y]) == a + c + y + d + b
  {
    var x := c + Placeholder(1) + d;
    var args := [x, y];
    PlaceholderChars(1);
    assert '$' !in x;
    assert args[..1] == [x];
    FirstOccurrenceOnly(a, b, x);
    var mid := a + x + b;
    assert mid == (a + c) + Placeholder(1) + (d + b);
    assert '{' !in a + c;
    FirstCharAbsent(a + c, Placeholder(1));
    ReplaceFirstSplit([], a + c, Placeholder(1), d + b, y);
    ExpandPlain(y, Placeholder(1), [] + (a + c), d + b);
  }

  /** The replacement is a `replace` pattern: `$&` puts the placeholder itself back. */
  lemma DollarAmpersandKeepsPlaceholder(a: string, b: string)
    requires '{' !in a
    ensures Substitute(a + Placeholder(0) + b, ["$&"]) == a + Placeholder(0) + b
  {
    var text := a + Placeholder(0) + b;
    assert ["$&"][..0] == [];
    assert Substitute(text, []) == text;
    FirstCharAbsent(a, Placeholder(0));
    ReplaceFirstSplit([], a, Placeholder(0), b, "$&");
    assert Expand("$&", Placeholder(0), [] + a, b) == Placeholder(0) + Expand([], Placeholder(0), [] + a, b);
  }

  // ---------------------------------------------------------------- notifications

  datatype NotificationType =
    | Info | Success | Warning | Error | Activation | CommandExecuted | ExportStarting | LanguageChanged

  /** `shouldShowNotification`'s switch on the level. */
  function Shows(level: string, kind: NotificationType): (r: bool) {
    match level
    case "silent" => false
    case "minimal" => kind.Success? || kind.Error?
    case "all" => true
    case _ => true
  }

  class NotificationManager {
    var notificationLevel: string

    /** The default level is minimal. */
    constructor()
      ensures notificationLevel == "minimal"
    {
      notificationLevel := "minimal";
    }

    /** `setNotificationLevel`: any string is stored as it is, known level or not. */
    method SetNotificationLevel(level: string)
      modifies this
      ensures notificationLevel == level
    {
      notificationLevel := level;
    }

    function ShouldShowNotification(kind: NotificationType): (r: bool)
      reads this
      ensures r <==> notificationLevel != "silent" && (notificationLevel == "minimal" ==> (kind.Success? || kind.Error?))
    {
      Shows(notificationLevel, kind)
    }
  }

  /** Silent shows nothing; minimal shows exactly successes and errors; every other string shows everything. */
  lemma LevelsExactly(level: string, kind: NotificationType)
    ensures level == "silent" ==> !Shows(level, kind)
    ensures level == "minimal" ==> (Shows(level, kind) <==> kind.Success? || kind.Error?)
    ensures level != "silent" && level != "minimal" ==> Shows(level, kind)
  {
  }

  /** Raising the level never hides a notification: silent shows a subset of minimal, minimal of all. */
  lemma LevelsNested(kind: NotificationType)
    ensures Shows("silent", kind) ==> Shows("minimal", kind)
    ensures Shows("minimal", kind) ==> Shows("all", kind)
  {
  }
}
