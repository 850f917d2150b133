/** The title examples the unit tests pin (tests/unit/droplinks.test.js,
    "should extract title from URL"), each under the assumption that the
    platform parser splits the URL into the pathname and hostname a WHATWG
    URL parser gives it. Each stage of the pipeline is evaluated in a lemma
    of its own. */
module TitleExamples {
  import opened Wrappers
  import opened Text
  import opened UrlTitle

  lemma StripOneSlash(s: string)
    requires |s| >= 2 && s[0] == '/' && s[1] != '/'
    ensures StripLeadingSlashes(s) == s[1..]
  {
  }

  lemma NoDotNoExtension(s: string)
    requires forall i :: 0 <= i < |s| ==> s[i] != '.'
    ensures DropExtension(s) == s
  {
  }

  lemma EmptyPathTitle()
    ensures PathTitle("/") == ""
  {
    assert StripLeadingSlashes("/") == "";
  }

  lemma AboutUsStages()
    ensures StripLeadingSlashes("/about-us") == "about-us"
    ensures DropExtension("about-us") == "about-us"
  {
    StripOneSlash("/about-us");
    assert "/about-us"[1..] == "about-us";
    NoDotNoExtension("about-us");
  }

  lemma AboutUsSpaced()
    ensures DashesToSpaces("about-us") == "about us"
  {
  }

  lemma AboutUsCapitalized()
    ensures CapitalizeWords("about us") == "About Us"
  {
  }

  lemma AboutUsPath()
    ensures PathTitle("/about-us") == "About Us"
  {
    AboutUsStages();
    AboutUsSpaced();
    AboutUsCapitalized();
  }

  lemma AboutUs(parse: UrlParser)
    requires parse("https://example.com/about-us") == Some(UrlParts("/about-us", "example.com"))
    ensures ExtractTitleFromUrl(parse, "https://example.com/about-us") == "About Us"
  {
    AboutUsPath();
  }

  lemma WwwHostOnly(parse: UrlParser)
    requires parse("https://www.test.com") == Some(UrlParts("/", "www.test.com"))
    ensures ExtractTitleFromUrl(parse, "https://www.test.com") == "test.com"
  {
    EmptyPathTitle();
    assert StripWww("www.test.com") == "test.com";
  }

  lemma HostWithEmptyPath(parse: UrlParser)
    requires parse("https://domain.com/") == Some(UrlParts("/", "domain.com"))
    ensures ExtractTitleFromUrl(parse, "https://domain.com/") == "domain.com"
  {
    EmptyPathTitle();
    assert "domain.com"[0] != "www."[0];
    assert StripWww("domain.com") == "domain.com";
  }

  lemma UserRepoStages()
    ensures StripLeadingSlashes("/user/repo") == "user/repo"
    ensures DropExtension("user/repo") == "user/repo"
  {
    StripOneSlash("/user/repo");
    assert "/user/repo"[1..] == "user/repo";
    NoDotNoExtension("user/repo");
  }

  lemma UserRepoSpaced()
    ensures DashesToSpaces("user/repo") == "user/repo"
  {
  }

  lemma UserRepoCapitalized()
    ensures CapitalizeWords("user/repo") == "User/Repo"
  {
  }

  lemma UserRepoPath()
    ensures PathTitle("/user/repo") == "User/Repo"
  {
    UserRepoStages();
    UserRepoSpaced();
    UserRepoCapitalized();
  }

  lemma NestedPath(parse: UrlParser)
    requires parse("https://github.com/user/repo") == Some(UrlParts("/user/repo", "github.com"))
    ensures ExtractTitleFromUrl(parse, "https://github.com/user/repo") == "User/Repo"
  {
    UserRepoPath();
  }

  lemma ShortFileStages()
    ensures StripLeadingSlashes("/a_b.md") == "a_b.md"
    ensures DropExtension("a_b.md") == "a_b"
  {
    StripOneSlash("/a_b.md");
    assert "/a_b.md"[1..] == "a_b.md";
    assert IsExtensionAt("a_b.md", 3);
  }

  lemma ShortFileSpaced()
    ensures DashesToSpaces("a_b") == "a b"
  {
  }

  lemma ShortFileCapitalized()
    ensures CapitalizeWords("a b") == "A B"
  {
  }

  lemma ShortFilePath()
    ensures PathTitle("/a_b.md") == "A B"
  {
    ShortFileStages();
    ShortFileSpaced();
    ShortFileCapitalized();
  }

  /** An underscore becomes a space and the file extension is dropped. */
  lemma UnderscoreAndExtension(parse: UrlParser)
    requires parse("https://x.io/a_b.md") == Some(UrlParts("/a_b.md", "x.io"))
    ensures ExtractTitleFromUrl(parse, "https://x.io/a_b.md") == "A B"
  {
    ShortFilePath();
  }

  /** The parser rejects the text: the text itself is the title. */
  lemma Unparseable(parse: UrlParser)
    requires parse("not-a-url") == None
    ensures ExtractTitleFromUrl(parse, "not-a-url") == "not-a-url"
  {
  }
}
