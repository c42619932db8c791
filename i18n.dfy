/** providers/i18n-provider.tsx: the current language, its persistence,
    the translation lookup with its fallback chain, and `{name}`
    placeholder substitution. */
module I18n {
  import opened Common

  datatype Language = En | Zh

  /** The language codes of `availableLanguages`. */
  function Code(l: Language): string {
    match l
    case En => "en"
    case Zh => "zh"
  }

  /** `availableLanguages.some(lang => lang.code === s)`, giving the match. */
  function ParseLanguage(s: string): (r: Option<Language>)
    ensures r.Some? ==> Code(r.value) == s
    ensures r.None? ==> s != Code(En) && s != Code(Zh)
  {
    if s == "en" then Some(En) else if s == "zh" then Some(Zh) else None
  }

  /** Every language is recognised by its own code. */
  lemma ParseCode(l: Language)
    ensures ParseLanguage(Code(l)) == Some(l)
  {
  }

  /** `getInitialLanguage`: the saved language when it is an available
      code, English otherwise. */
  function InitialLanguage(saved: Option<string>): (l: Language)
    ensures Truthy(saved) && ParseLanguage(saved.value).Some? ==> l == ParseLanguage(saved.value).value
    ensures !(Truthy(saved) && ParseLanguage(saved.value).Some?) ==> l == En
  {
    if Truthy(saved) && ParseLanguage(saved.value).Some? then ParseLanguage(saved.value).value else En
  }

  /** What `setLanguage` saves is what the next start reads back. */
  lemma InitialLanguageOfSaved(l: Language)
    ensures InitialLanguage(Some(Code(l))) == l
  {
  }

  /** `navigator.language.split('-')[0]`: the text before the first '-'. */
  function BrowserPrefix(s: string): (r: string)
    ensures r <= s && '-' !in r
    ensures |r| < |s| ==> s[|r|] == '-'
  {
    if s == [] || s[0] == '-' then [] else [s[0]] + BrowserPrefix(s[1..])
  }

  /** One translation file: keys to texts. */
  type Dictionary = map<string, string>

  /** The key has a truthy text in the dictionary. */
  predicate HasText(d: Dictionary, key: string) {
    key in d && d[key] != ""
  }

  /** `translations[language][key] || translations.en[key] || key`. */
  function Lookup(current: Dictionary, english: Dictionary, key: string): (text: string)
    ensures HasText(current, key) ==> text == current[key]
    ensures !HasText(current, key) && HasText(english, key) ==> text == english[key]
    ensures !HasText(current, key) && !HasText(english, key) ==> text == key
  {
    if HasText(current, key) then current[key]
    else if HasText(english, key) then english[key]
    else key
  }

  /** A lookup never yields an empty text for a non-empty key, and when the
      current language is English a missing key falls straight back to the
      key itself. */
  lemma LookupFallback(current: Dictionary, english: Dictionary, key: string)
    ensures key != "" ==> Lookup(current, english, key) != ""
    ensures Lookup(english, english, key) == (if HasText(english, key) then english[key] else key)
  {
  }

  /** The pattern `\{name\}` of a parameter. */
  function Placeholder(name: string): (p: string)
    ensures |p| == |name| + 2 && p[0] == '{' && p[|p| - 1] == '}'
  {
    "{" + name + "}"
  }

  /** `text.replace(/pattern/g, value)` for a literal pattern: every
      occurrence, scanning left to right without overlaps. */
  function ReplaceAll(s: string, pat: string, value: string): (r: string)
    requires pat != []
    ensures |value| == |pat| ==> |r| == |s|
    decreases |s|
  {
    if pat <= s then value + ReplaceAll(s[|pat|..], pat, value)
    else if s == [] then []
    else [s[0]] + ReplaceAll(s[1..], pat, value)
  }

  /** Text without the pattern is left as it is. */
  lemma {:induction false} ReplaceAllAbsent(s: string, pat: string, value: string)
    requires pat != [] && !Includes(s, pat)
    ensures ReplaceAll(s, pat, value) == s
    decreases |s|
  {
    if s != [] {
      ReplaceAllAbsent(s[1..], pat, value);
    }
  }

  /** Replacing a pattern by itself changes nothing. */
  lemma {:induction false} ReplaceAllSelf(s: string, pat: string)
    requires pat != []
    ensures ReplaceAll(s, pat, pat) == s
    decreases |s|
  {
    if pat <= s {
      ReplaceAllSelf(s[|pat|..], pat);
      assert s == pat + s[|pat|..];
    } else if s != [] {
      ReplaceAllSelf(s[1..], pat);
    }
  }

  /** A pattern whose only '{' is its first character. */
  predicate BraceLed(pat: string) {
    pat != [] && pat[0] == '{' && forall j :: 1 <= j < |pat| ==> pat[j] != '{'
  }

  /** The placeholder of a name without '{' is brace-led. */
  lemma PlaceholderBraceLed(name: string)
    requires '{' !in name
    ensures BraceLed(Placeholder(name))
  {
    var p := Placeholder(name);
    forall j | 1 <= j < |p|
      ensures p[j] != '{'
    {
      if j <= |name| {
        assert p[j] == name[j - 1];
      }
    }
  }

  /** No occurrence of a brace-led pattern straddles the boundary before
      a '{', so the text on each side is rewritten on its own. */
  lemma {:induction false} ReplaceAllBeforeBrace(a: string, b: string, pat: string, value: string)
    requires BraceLed(pat) && b != [] && b[0] == '{'
    ensures ReplaceAll(a + b, pat, value) == ReplaceAll(a, pat, value) + ReplaceAll(b, pat, value)
    decreases |a|
  {
    if a == [] {
      assert a + b == b;
    } else if |pat| <= |a| && pat <= a {
      assert pat <= a + b;
      assert (a + b)[|pat|..] == a[|pat|..] + b;
      ReplaceAllBeforeBrace(a[|pat|..], b, pat, value);
    } else {
      if |pat| <= |a| {
        assert (a + b)[..|pat|] == a[..|pat|];
      } else {
        assert (a + b)[|a|] == b[0] != pat[|a|];
      }
      assert !(pat <= a + b);
      assert (a + b)[1..] == a[1..] + b;
      ReplaceAllBeforeBrace(a[1..], b, pat, value);
    }
  }

  /** Text without '{' holds no start of a brace-led pattern, so it is
      copied unchanged ahead of what follows it. */
  lemma {:induction false} ReplaceAllBraceFree(x: string, b: string, pat: string, value: string)
    requires BraceLed(pat) && '{' !in x
    ensures ReplaceAll(x + b, pat, value) == x + ReplaceAll(b, pat, value)
    decreases |x|
  {
    if x == [] {
      assert x + b == b;
    } else {
      assert (x + b)[0] == x[0] != pat[0];
      assert (x + b)[1..] == x[1..] + b;
      ReplaceAllBraceFree(x[1..], b, pat, value);
    }
  }

  /** A placeholder anywhere in a text becomes the value, and the text
      around it is rewritten as it would be on its own: every occurrence
      of `{name}`, wherever it stands, is replaced. */
  lemma ReplacePlaceholder(a: string, name: string, b: string, value: string)
    requires '{' !in name
    ensures ReplaceAll(a + Placeholder(name) + b, Placeholder(name), value)
            == ReplaceAll(a, Placeholder(name), value) + value + ReplaceAll(b, Placeholder(name), value)
  {
    var p := Placeholder(name);
    PlaceholderBraceLed(name);
    assert a + p + b == a + (p + b);
    ReplaceAllBeforeBrace(a, p + b, p, value);
    assert p <= p + b && (p + b)[|p|..] == b;
  }

  /** Text with no '{' contains no placeholder. */
  lemma {:induction false} NoBraceNoPlaceholder(s: string, name: string)
    requires '{' !in s
    ensures !Includes(s, Placeholder(name))
    decreases |s|
  {
    if s != [] {
      assert Placeholder(name)[0] == '{';
      NoBraceNoPlaceholder(s[1..], name);
    }
  }

  /** A placeholder starts another only if the names are equal, when the
      other name has no '}'. */
  lemma PlaceholderPrefix(name: string, other: string)
    requires '}' !in other
    ensures Placeholder(name) <= Placeholder(other) ==> name == other
  {
    var p, q := Placeholder(name), Placeholder(other);
    if p <= q {
      assert q[|p| - 1] == '}';
      forall k | 0 <= k < |q| - 1
        ensures q[k] != '}'
      {
        if k > 0 {
          assert q[k] == other[k - 1];
        }
      }
      assert |p| == |q|;
      assert name == p[1..|p| - 1] == q[1..|q| - 1] == other;
    }
  }

  /** For a brace-free name, no other name's placeholder occurs in its
      placeholder. */
  lemma PlaceholderNotInOther(name: string, other: string)
    requires name != other && '{' !in other && '}' !in other
    ensures !Includes(Placeholder(other), Placeholder(name))
  {
    var q := Placeholder(other);
    PlaceholderPrefix(name, other);
    assert q[1..] == other + "}";
    NoBraceNoPlaceholder(q[1..], name);
  }

  /** The `forEach` over `Object.entries(params)`, in entry order, each
      value already converted with `String(...)`. Text mentioning none of
      the parameters' placeholders comes back as it is. */
  function SubstituteAll(text: string, params: seq<(string, string)>): (r: string)
    ensures (forall i :: 0 <= i < |params| ==> !Includes(text, Placeholder(params[i].0))) ==> r == text
    decreases |params|
  {
    if params == [] then text
    else
      var next := ReplaceAll(text, Placeholder(params[0].0), params[0].1);
      if !Includes(text, Placeholder(params[0].0)) then
        ReplaceAllAbsent(text, Placeholder(params[0].0), params[0].1);
        SubstituteAll(next, params[1..])
      else
        SubstituteAll(next, params[1..])
  }

  /** A name with neither brace. */
  predicate BraceFree(name: string) {
    '{' !in name && '}' !in name
  }

  /** A text that includes a pattern splits around one occurrence of it. */
  lemma {:induction false} IncludesSplit(s: string, sub: string) returns (a: string, b: string)
    requires Includes(s, sub)
    ensures s == a + sub + b
    decreases |s|
  {
    if sub <= s {
      a, b := [], s[|sub|..];
      assert s == sub + s[|sub|..];
    } else {
      var a', b' := IncludesSplit(s[1..], sub);
      a, b := [s[0]] + a', b';
      assert s == [s[0]] + s[1..];
    }
  }

  /** A text built around an occurrence of a pattern includes it. */
  lemma {:induction false} SplitIncludes(a: string, sub: string, b: string)
    ensures Includes(a + sub + b, sub)
    decreases |a|
  {
    if a != [] && !(sub <= a + sub + b) {
      assert (a + sub + b)[1..] == a[1..] + sub + b;
      SplitIncludes(a[1..], sub, b);
    }
  }

  /** Replacing one brace-free name leaves the placeholder of another
      brace-free name in place, wherever it stands. */
  lemma ReplaceKeepsOther(a: string, other: string, b: string, name: string, value: string)
    requires BraceFree(name) && BraceFree(other) && name != other
    ensures ReplaceAll(a + Placeholder(other) + b, Placeholder(name), value)
            == ReplaceAll(a, Placeholder(name), value) + Placeholder(other) + ReplaceAll(b, Placeholder(name), value)
  {
    var p, q := Placeholder(name), Placeholder(other);
    PlaceholderBraceLed(name);
    assert a + q + b == a + (q + b);
    ReplaceAllBeforeBrace(a, q + b, p, value);
    if |p| <= |q| {
      assert (q + b)[..|p|] == q[..|p|];
      PlaceholderPrefix(name, other);
    } else {
      assert (q + b)[|q| - 1] == '}';
      assert p[|q| - 1] == name[|q| - 2];
    }
    assert !(p <= q + b);
    assert (q + b)[1..] == q[1..] + b && q[1..] == other + "}";
    ReplaceAllBraceFree(q[1..], b, p, value);
    assert q == [q[0]] + q[1..];
  }

  /** A placeholder whose (brace-free) name is not among the (brace-free)
      parameter names survives the substitution, wherever it stands in
      the text. */
  lemma {:induction false} UnknownPlaceholderKept(text: string, other: string, params: seq<(string, string)>)
    requires BraceFree(other) && Includes(text, Placeholder(other))
    requires forall i :: 0 <= i < |params| ==> BraceFree(params[i].0) && params[i].0 != other
    ensures Includes(SubstituteAll(text, params), Placeholder(other))
    decreases |params|
  {
    if params != [] {
      var a, b := IncludesSplit(text, Placeholder(other));
      var name, value := params[0].0, params[0].1;
      ReplaceKeepsOther(a, other, b, name, value);
      SplitIncludes(ReplaceAll(a, Placeholder(name), value), Placeholder(other), ReplaceAll(b, Placeholder(name), value));
      UnknownPlaceholderKept(ReplaceAll(text, Placeholder(name), value), other, params[1..]);
    }
  }

  class I18nProvider {
    var language: Language
    var isLoaded: bool
    /** The 'taskflow-language' entry of the browser storage. */
    var saved: Option<string>
    /** The signed-in user's id, if any. */
    var user: Option<string>
    /** Attempted profile writes: user id and language. */
    var profileWrites: seq<(string, Language)>
    const english: Dictionary
    const chinese: Dictionary

    constructor (saved: Option<string>, user: Option<string>, english: Dictionary, chinese: Dictionary)
      ensures language == InitialLanguage(saved) && !isLoaded
      ensures this.saved == saved && this.user == user && profileWrites == []
      ensures this.english == english && this.chinese == chinese
    {
      language := InitialLanguage(saved);
      isLoaded := false;
      this.saved := saved;
      this.user := user;
      profileWrites := [];
      this.english := english;
      this.chinese := chinese;
    }

    function DictionaryOf(l: Language): Dictionary
      reads this
    {
      match l
      case En => english
      case Zh => chinese
    }

    /** The mount effect: with nothing saved, an available browser
        language is adopted and saved; loading is then marked done. */
    method Mount(navigatorLanguage: string)
      modifies this
      ensures var browser := BrowserPrefix(navigatorLanguage);
              if !Truthy(old(saved)) && browser != "" && ParseLanguage(browser).Some? then
                language == ParseLanguage(browser).value && saved == Some(browser)
              else
                language == old(language) && saved == old(saved)
      ensures isLoaded && user == old(user) && profileWrites == old(profileWrites)
    {
      var browser := BrowserPrefix(navigatorLanguage);
      if !Truthy(saved) && browser != "" && ParseLanguage(browser).Some? {
        language := ParseLanguage(browser).value;
        saved := Some(browser);
      }
      isLoaded := true;
    }

    /** `setLanguage`: state and storage always change; a signed-in user's
        profile write is attempted and its failure only logged. */
    method SetLanguage(l: Language, remoteOk: bool)
      modifies this
      ensures language == l && saved == Some(Code(l)) && InitialLanguage(saved) == l
      ensures profileWrites == old(profileWrites) + (if user.Some? then [(user.value, l)] else [])
      ensures isLoaded == old(isLoaded) && user == old(user)
    {
      language := l;
      saved := Some(Code(l));
      if user.Some? {
        profileWrites := profileWrites + [(user.value, l)];
      }
    }

    /** `t(key, params)`: the looked-up text with every parameter's
        placeholders replaced in entry order; without parameters the
        looked-up text itself. */
    method Translate(key: string, params: Option<seq<(string, string)>>) returns (text: string)
      ensures params.None? ==> text == Lookup(DictionaryOf(language), english, key)
      ensures params.Some? ==> text == SubstituteAll(Lookup(DictionaryOf(language), english, key), params.value)
    {
      text := Lookup(DictionaryOf(language), english, key);
      if params.Some? {
        var ps := params.value;
        ghost var base := text;
        for i := 0 to |ps|
          invariant SubstituteAll(text, ps[i..]) == SubstituteAll(base, ps)
        {
          assert ps[i..][1..] == ps[i + 1..];
          text := ReplaceAll(text, Placeholder(ps[i].0), ps[i].1);
        }
      }
    }
  }
}
