/**
 * The biography walk (defcon.py:130-150), as a pure function of the
 * biography document and of the registry's keys: for each article, in
 * document order, either nothing (no `h2` child, or an `h2` with no text),
 * a fatal KeyError (its title's key is not registered), or a link that
 * sets the registered presentation's `details` to the article's text.
 */
module Linking {
  import opened Wrappers
  import opened Titles
  import opened Markup

  /** The three biography titles the table rewrites, and their rewrites.
      Each biography spelling is written as its schedule spelling plus what
      the biography page adds. */
  const PanelSchedule := "DEF CON 101: The Panel"
  const PanelBio := PanelSchedule + "."
  const SdrTitle := "Introduction to SDR and the Wireless Village"
  const KvmSchedule := "Key-Logger, Video, Mouse \U{2014} How To Turn Your KVM Into a Raging Key-logging"
  const KvmBio := KvmSchedule + " " + "Monster"

  /** The alias table (lines 140-145): the schedule's spelling of a biography title. */
  function AliasTitle(title: string): string {
    if title == PanelBio then PanelSchedule
    else if title == SdrTitle then SdrTitle
    else if title == KvmBio then KvmSchedule
    else title
  }

  /** A trailing full stop does not change a key. */
  lemma TrailingStopKeepsKey(t: string)
    ensures CleanTitle(t + ".") == CleanTitle(t)
  {
    CleanTitleConcat(t, ".");
    CleanTitleOfChar('.');
    assert Strip(['.']) == [] + Strip([]);
  }

  lemma SpaceHasNoKey()
    ensures CleanTitle(" ") == []
  {
    assert Lower(" ") == [' '] + Lower([]);
    assert Strip(" ") == [] + Strip([]);
  }

  lemma CapitalHasKey(c: char)
    requires 'A' <= c <= 'Z'
    ensures |CleanTitle([c])| == 1
  {
    var l := (c as int + 32) as char;
    assert Lower([c]) == [l] + Lower([]);
    assert Strip([l]) == [l] + Strip([]);
  }

  /** A trailing word that starts with a letter lengthens a key. */
  lemma TrailingWordLengthensKey(t: string, word: string)
    requires |word| > 0 && 'A' <= word[0] <= 'Z'
    ensures |CleanTitle(t)| < |CleanTitle(t + " " + word)|
  {
    var head, rest := [word[0]], word[1..];
    var front := t + " ";
    var whole := front + head;
    assert word == head + rest;
    assert front + (head + rest) == whole + rest;
    assert t + " " + word == whole + rest;
    SpaceHasNoKey();
    CapitalHasKey(word[0]);
    CleanTitleConcat(t, " ");
    CleanTitleConcat(front, head);
    CleanTitleConcat(whole, rest);
  }

  /** Only the third alias changes the matching key: the first only drops a
      trailing full stop, which `clean_title` drops anyway, and the second
      maps a title to itself. */
  lemma AliasChangesKeyOnlyForKvm(title: string)
    ensures CleanTitle(AliasTitle(title)) != CleanTitle(title) <==> title == KvmBio
  {
    if title == PanelBio {
      TrailingStopKeepsKey(PanelSchedule);
    } else if title == KvmBio {
      TrailingWordLengthensKey(KvmSchedule, "Monster");
    }
  }

  /** One `presentation['details'] = ...` assignment. */
  datatype Link = Link(key: string, details: string)

  const ArticleQuery := Query("article", None)

  /** The title text of an article, None when the article is skipped (lines 131-138). */
  function ArticleTitle(article: Node): (r: Option<string>)
    ensures r.Some? ==> r.value != ""
    ensures r.None? <==>
      FirstFrom(article.children, 0, "h2").None? ||
      article.children[FirstFrom(article.children, 0, "h2").value].text in {None, Some("")}
  {
    match FirstFrom(article.children, 0, "h2")
    case None => None
    case Some(h) =>
      var text := article.children[h].text;
      if text.None? || text.value == "" then None else text
  }

  /** The step of one article: nothing, a link, or the missing key (lines 131-150). */
  function ArticleLink(article: Node, keys: set<string>): Result<Option<Link>, string> {
    match ArticleTitle(article)
    case None => Ok(None)
    case Some(title) =>
      var key := CleanTitle(AliasTitle(title));
      if key !in keys then Err(key) else Ok(Some(Link(key, article.allText)))
  }

  /** The steps of the articles `cs`, in order; the first missing key ends the walk. */
  function Links(cs: seq<Cursor>, keys: set<string>): Result<seq<Link>, string>
    requires AllValid(cs)
    decreases |cs|
  {
    if cs == [] then Ok([])
    else
      match Links(cs[..|cs| - 1], keys)
      case Err(k) => Err(k)
      case Ok(links) =>
        match ArticleLink(NodeAt(cs[|cs| - 1]), keys)
        case Err(k) => Err(k)
        case Ok(None) => Ok(links)
        case Ok(Some(link)) => Ok(links + [link])
  }

  /** The whole walk of the biography document. */
  function BioLinks(root: Node, keys: set<string>): Result<seq<Link>, string> {
    Links(Select(root, ArticleQuery), keys)
  }

  /** What the last link for `key` set `details` to, if any. */
  function LastDetails(links: seq<Link>, key: string): Option<string>
    decreases |links|
  {
    if links == [] then None
    else if links[|links| - 1].key == key then Some(links[|links| - 1].details)
    else LastDetails(links[..|links| - 1], key)
  }

  /** A presentation's `details` after the links: the last link for its key
      sets them; with no link they stay as they were. */
  function DetailsAfter(links: seq<Link>, key: string, before: Option<string>): Option<string> {
    match LastDetails(links, key)
    case Some(d) => Some(d)
    case None => before
  }

  /** One more article of the walk. */
  lemma LinksStep(cs: seq<Cursor>, keys: set<string>, i: nat)
    requires AllValid(cs) && i < |cs| && Links(cs[..i], keys).Ok?
    ensures Links(cs[..i + 1], keys) ==
      match ArticleLink(NodeAt(cs[i]), keys)
      case Err(k) => Err(k)
      case Ok(None) => Links(cs[..i], keys)
      case Ok(Some(link)) => Ok(Links(cs[..i], keys).value + [link])
  {
    var upto := cs[..i + 1];
    assert upto[..i] == cs[..i] && upto[i] == cs[i];
  }

  /** One more link: it decides its own key's details and no other's. */
  lemma DetailsAfterStep(links: seq<Link>, link: Link, before: Option<string>)
    ensures DetailsAfter(links + [link], link.key, before) == Some(link.details)
    ensures forall k, b | k != link.key :: DetailsAfter(links + [link], k, b) == DetailsAfter(links, k, b)
  {
    assert (links + [link])[..|links|] == links;
  }

  /** A missing key ends the walk: the articles after it are never read. */
  lemma {:induction false} LinksErrPrefix(cs: seq<Cursor>, keys: set<string>, n: nat, key: string)
    requires AllValid(cs) && n <= |cs| && Links(cs[..n], keys) == Err(key)
    ensures Links(cs, keys) == Err(key)
    decreases |cs|
  {
    if n < |cs| {
      var init := cs[..|cs| - 1];
      assert init[..n] == cs[..n];
      LinksErrPrefix(init, keys, n, key);
    } else {
      assert cs[..n] == cs;
    }
  }

  /** The walk fails exactly when some article with a title has a key that is
      not registered; when it succeeds every link names a registered key. */
  lemma {:induction false} LinksFailIff(cs: seq<Cursor>, keys: set<string>)
    requires AllValid(cs)
    ensures Links(cs, keys).Err? <==>
      exists i | 0 <= i < |cs| :: ArticleTitle(NodeAt(cs[i])).Some?
        && CleanTitle(AliasTitle(ArticleTitle(NodeAt(cs[i])).value)) !in keys
    ensures Links(cs, keys).Ok? ==> forall l | l in Links(cs, keys).value :: l.key in keys
  {
    if cs != [] {
      var init := cs[..|cs| - 1];
      LinksFailIff(init, keys);
      assert forall i | 0 <= i < |init| :: init[i] == cs[i];
    }
  }

  /** The article at `n` has a title whose aliased key is `key`. */
  predicate KeyedArticle(n: Node, key: string) {
    ArticleTitle(n).Some? && CleanTitle(AliasTitle(ArticleTitle(n).value)) == key
  }

  /** The last article of a successful walk either sets `key`'s details to its
      text or, when its key is another one, leaves them as the earlier articles set them. */
  lemma LastDetailsStep(cs: seq<Cursor>, keys: set<string>, key: string)
    requires AllValid(cs) && cs != [] && Links(cs, keys).Ok?
    ensures Links(cs[..|cs| - 1], keys).Ok?
    ensures KeyedArticle(NodeAt(cs[|cs| - 1]), key) ==>
      LastDetails(Links(cs, keys).value, key) == Some(NodeAt(cs[|cs| - 1]).allText)
    ensures !KeyedArticle(NodeAt(cs[|cs| - 1]), key) ==>
      LastDetails(Links(cs, keys).value, key) == LastDetails(Links(cs[..|cs| - 1], keys).value, key)
  {
    var links := Links(cs[..|cs| - 1], keys).value;
    var step := ArticleLink(NodeAt(cs[|cs| - 1]), keys);
    if step.value.Some? {
      assert Links(cs, keys).value == links + [step.value.value];
      assert (links + [step.value.value])[..|links|] == links;
    }
  }

  /** Dropping a last article that lacks `key` keeps whether some article has it. */
  lemma KeyedInInit(cs: seq<Cursor>, init: seq<Cursor>, key: string)
    requires AllValid(cs) && cs != [] && init == cs[..|cs| - 1]
    requires !KeyedArticle(NodeAt(cs[|cs| - 1]), key)
    ensures (exists i | 0 <= i < |cs| :: KeyedArticle(NodeAt(cs[i]), key)) <==>
      exists i | 0 <= i < |init| :: KeyedArticle(NodeAt(init[i]), key)
  {
    if exists i | 0 <= i < |cs| :: KeyedArticle(NodeAt(cs[i]), key) {
      var i :| 0 <= i < |cs| && KeyedArticle(NodeAt(cs[i]), key);
      if i == |init| {
        assert false;
      }
      assert init[i] == cs[i];
    }
    if exists i | 0 <= i < |init| :: KeyedArticle(NodeAt(init[i]), key) {
      var i :| 0 <= i < |init| && KeyedArticle(NodeAt(init[i]), key);
      assert init[i] == cs[i];
    }
  }

  /** No article after `i` has `key`, when none in the earlier articles has it
      and the last one does not either. */
  lemma NoneKeyedAfter(cs: seq<Cursor>, init: seq<Cursor>, key: string, i: nat)
    requires AllValid(cs) && cs != [] && init == cs[..|cs| - 1] && i < |init|
    requires !KeyedArticle(NodeAt(cs[|cs| - 1]), key)
    requires forall j | i < j < |init| :: !KeyedArticle(NodeAt(init[j]), key)
    ensures forall j | i < j < |cs| :: !KeyedArticle(NodeAt(cs[j]), key)
  {
    forall j | i < j < |cs|
      ensures !KeyedArticle(NodeAt(cs[j]), key)
    {
      if j < |cs| - 1 {
        assert init[j] == cs[j];
      }
    }
  }

  /** A walk that succeeds sets a key's details iff some article's aliased title
      has that key, and then the last such article's text wins: the loop
      overwrites `details` once per matching article (lines 130-150). */
  lemma {:induction false} LastDetailsFromArticle(cs: seq<Cursor>, keys: set<string>, key: string)
    requires AllValid(cs)
    requires Links(cs, keys).Ok?
    ensures LastDetails(Links(cs, keys).value, key).Some? <==>
      exists i | 0 <= i < |cs| :: KeyedArticle(NodeAt(cs[i]), key)
    ensures LastDetails(Links(cs, keys).value, key).Some? ==>
      exists i | 0 <= i < |cs| ::
        && KeyedArticle(NodeAt(cs[i]), key)
        && LastDetails(Links(cs, keys).value, key) == Some(NodeAt(cs[i]).allText)
        && forall j | i < j < |cs| :: !KeyedArticle(NodeAt(cs[j]), key)
    decreases |cs|
  {
    if cs != [] {
      var init := cs[..|cs| - 1];
      var last := |cs| - 1;
      LastDetailsStep(cs, keys, key);
      var d := LastDetails(Links(cs, keys).value, key);
      if KeyedArticle(NodeAt(cs[last]), key) {
        assert d == Some(NodeAt(cs[last]).allText);
      } else {
        LastDetailsFromArticle(init, keys, key);
        KeyedInInit(cs, init, key);
        if d.Some? {
          var i :| 0 <= i < |init| && KeyedArticle(NodeAt(init[i]), key)
            && d == Some(NodeAt(init[i]).allText)
            && forall j | i < j < |init| :: !KeyedArticle(NodeAt(init[j]), key);
          assert init[i] == cs[i];
          NoneKeyedAfter(cs, init, key, i);
        }
      }
    }
  }
}
