/** Authors and their canonical identities under a repository's mailmap:
    the reply of `git check-mailmap` is parsed into a name and an e-mail
    address, and the factory remembers every answer. */
module Mailmap {
  import opened Wrappers
  import opened PyText

  /** An author as a value: two authors are equal exactly when their names
      and e-mail addresses are. */
  datatype Author = Author(name: Option<string>, email: Option<string>)

  /** The other operand of `Author.__eq__`: an author or anything else. */
  datatype Operand = AuthorOperand(author: Author) | OtherOperand

  /** `Author.__eq__`. */
  function AuthorEquals(self: Author, other: Operand): (r: bool)
    ensures r <==> other.AuthorOperand? && other.author == self
  {
    match other
    case OtherOperand => false
    case AuthorOperand(o) => self.name == o.name && self.email == o.email
  }

  /** What `Author.__hash__` hashes: the pair of name and e-mail address. */
  function HashKey(a: Author): (Option<string>, Option<string>) {
    (a.name, a.email)
  }

  /** Equal authors hash alike, and authors with the same hash key are
      equal, so a dictionary keyed by authors finds an entry by value. */
  lemma HashConsistent(a: Author, b: Author)
    ensures AuthorEquals(a, AuthorOperand(b)) <==> HashKey(a) == HashKey(b)
  {
    assert HashKey(a) == HashKey(b) ==> a.name == b.name && a.email == b.email;
  }

  /** `SimpleAuthorFactory.create_author`: the author as given. */
  function SimpleCreateAuthor(name: Option<string>, email: Option<string>): (a: Author)
    ensures AuthorEquals(a, AuthorOperand(Author(name, email)))
  {
    Author(name, email)
  }

  /** `str(x)` of an optional string: `None` prints as "None". */
  function PyStr(x: Option<string>): string {
    match x
    case None => "None"
    case Some(s) => s
  }

  /** The argument given to `git check-mailmap`: `f"{name} <{email}>"`. */
  function Query(name: Option<string>, email: Option<string>): string {
    PyStr(name) + " <" + PyStr(email) + ">"
  }

  /** How the `git check-mailmap` run ended: it raised, or it completed
      with some standard output. */
  datatype Reply = Raised | Completed(stdout: string)

  /** The parse of a stripped reply: an e-mail-only reply `<email>`, or
      `name <email>` split at the first `" <"`. `None` stands for the
      `IndexError` of a reply with no `" <"` at all. */
  function ParseOutput(output: string): (r: Option<(string, string)>)
    ensures r.None? <==> !StartsWith(output, "<") && FindFrom(output, " <", 0).None?
  {
    if StartsWith(output, "<") then Some(("", Slice(output, 1, -1)))
    else
      var parts := Split(output, " <");
      if |parts| < 2 then None else Some((parts[0], Slice(parts[1], 0, -1)))
  }

  /** `_get_canonical_identity` given the reply of the command: the parsed
      reply, or `(str(name), str(email))` when the command raised, printed
      nothing, or printed something that does not parse. */
  function CanonicalIdentity(name: Option<string>, email: Option<string>, reply: Reply): (r: (string, string))
    ensures (reply.Raised? || reply.stdout == []) ==> r == (PyStr(name), PyStr(email))
  {
    match reply
    case Raised => (PyStr(name), PyStr(email))
    case Completed(stdout) =>
      if stdout == [] then (PyStr(name), PyStr(email))
      else
        match ParseOutput(Strip(stdout))
        case None => (PyStr(name), PyStr(email))
        case Some(identity) => identity
  }

  /** `sep` does not occur in `s`. */
  predicate Free(s: string, sep: string)
    requires |sep| > 0
  {
    FindFrom(s, sep, 0).None?
  }

  /** A reply in git's own format, `name <email>`, parses back to that name
      and address when neither contains `" <"` and the name neither starts
      with white space nor with `<`; an empty name reads as an e-mail-only
      reply and gives the same pair. */
  lemma ParseReply(n: string, e: string)
    requires Free(n, " <") && Free(e, " <")
    requires n == [] || (!IsSpace(n[0]) && n[0] != '<')
    ensures ParseOutput(Strip(n + " <" + e + ">")) == Some((n, e))
  {
    var s := n + " <" + e + ">";
    if n == [] {
      assert s == " " + ("<" + e + ">");
      assert TrimLeft(s) == "<" + e + ">";
      assert TrimRight("<" + e + ">") == "<" + e + ">";
      assert Strip(s) == "<" + e + ">";
      SliceInside("<" + e + ">");
      assert ("<" + e + ">")[1..|e| + 1] == e;
    } else {
      assert TrimLeft(s) == s;
      assert TrimRight(s) == s;
      SplitName(n, e);
    }
  }

  /** git prints its answer as `name <email>` and a line break, which the
      strip removes, so the identity is the printed name and address. */
  lemma GitReplyIdentity(name: Option<string>, email: Option<string>, n: string, e: string)
    requires Free(n, " <") && Free(e, " <")
    requires n == [] || (!IsSpace(n[0]) && n[0] != '<')
    ensures CanonicalIdentity(name, email, Completed(n + " <" + e + ">\n")) == (n, e)
  {
    var s := n + " <" + e + ">";
    var line := s + "\n";
    assert line == n + " <" + e + ">\n" && line != [];
    if n == [] {
      var bare := "<" + e + ">";
      assert s == " " + bare && line == " " + (bare + "\n");
      assert TrimLeft(s) == bare && TrimLeft(line) == bare + "\n";
      assert (bare + "\n")[..|bare|] == bare;
    } else {
      assert TrimLeft(line) == line && TrimLeft(s) == s;
      assert line[..|s|] == s;
    }
    assert Strip(line) == Strip(s);
    ParseReply(n, e);
  }

  /** The split of `name <email>` for a non-empty name. */
  lemma SplitName(n: string, e: string)
    requires Free(n, " <") && Free(e, " <")
    requires n != [] && n[0] != '<'
    ensures ParseOutput(n + " <" + e + ">") == Some((n, e))
  {
    var s := n + " <" + e + ">";
    var rest := e + ">";
    assert s[0] == n[0];
    NameFirst(n, e);
    assert s[|n| + 2..] == rest;
    TailFree(e);
    assert Split(rest, " <") == [rest];
    assert Split(s, " <") == [s[..|n|]] + [rest];
    assert s[..|n|] == n;
    assert rest[..|e|] == e;
  }

  /** In `name <email>` the first `" <"` is the one after the name. */
  lemma NameFirst(n: string, e: string)
    requires Free(n, " <")
    ensures FindFrom(n + " <" + e + ">", " <", 0) == Some(|n|)
  {
    var s := n + " <" + e + ">";
    forall i: nat | i < |n|
      ensures !OccursAt(s, " <", i)
    {
      if i + 1 < |n| {
        assert s[i..i + 2] == n[i..i + 2];
        assert !OccursAt(n, " <", i);
      } else {
        assert s[i..i + 2][1] == s[i + 1] == ' ';
      }
    }
    assert OccursAt(s, " <", |n|);
    FirstAt(s, " <", |n|);
  }

  /** `email>` has no `" <"` when the address has none. */
  lemma TailFree(e: string)
    requires Free(e, " <")
    ensures Free(e + ">", " <")
  {
    var rest := e + ">";
    forall i: nat
      ensures !OccursAt(rest, " <", i)
    {
      if i + 2 <= |e| {
        assert rest[i..i + 2] == e[i..i + 2];
        assert !OccursAt(e, " <", i);
      } else if i + 2 == |rest| {
        assert rest[i..i + 2][1] == rest[i + 1] == '>';
      }
    }
    NotFound(rest, " <");
  }

  /** When `sep` occurs at `i` and nowhere before, the search finds `i`. */
  lemma FirstAt(s: string, sep: string, i: nat)
    requires |sep| > 0 && OccursAt(s, sep, i)
    requires forall j: nat :: j < i ==> !OccursAt(s, sep, j)
    ensures FindFrom(s, sep, 0) == Some(i)
  {
  }

  /** When `sep` occurs nowhere, the search finds nothing. */
  lemma NotFound(s: string, sep: string)
    requires |sep| > 0
    requires forall j: nat :: !OccursAt(s, sep, j)
    ensures FindFrom(s, sep, 0).None?
  {
  }

  /** A reply with neither a leading `<` nor a `" <"` cannot be parsed, so
      the author keeps the given name and address, `None` turned into
      "None". */
  lemma UnparsableReply(name: Option<string>, email: Option<string>, stdout: string)
    requires stdout != [] && !StartsWith(Strip(stdout), "<") && Free(Strip(stdout), " <")
    ensures CanonicalIdentity(name, email, Completed(stdout)) == (PyStr(name), PyStr(email))
  {
  }

  /** The mailmap-aware factory: the repository it asks and the answers it
      has remembered, keyed by the author as given. */
  class GitMailMapAuthorFactory {
    var mailmapLookupCache: map<Author, Author>
    const repoPath: Option<string>

    constructor (pathToRepo: Option<string>)
      ensures mailmapLookupCache == map[] && repoPath == pathToRepo
    {
      mailmapLookupCache := map[];
      repoPath := pathToRepo;
    }

    /** `create_author`: a remembered author is returned as it is, without
        running the command; otherwise the command's reply, which
        `checkMailmap` gives for a repository and a query, is parsed and the
        resulting author remembered. Entries are never removed or
        replaced. */
    method CreateAuthor(name: Option<string>, email: Option<string>,
                        checkMailmap: (Option<string>, string) -> Reply)
      returns (author: Author)
      modifies this
      ensures var original := Author(name, email);
              && (original in old(mailmapLookupCache) ==>
                    author == old(mailmapLookupCache)[original] && mailmapLookupCache == old(mailmapLookupCache))
              && (original !in old(mailmapLookupCache) ==>
                    var identity := CanonicalIdentity(name, email, checkMailmap(repoPath, Query(name, email)));
                    && author == Author(Some(identity.0), Some(identity.1))
                    && mailmapLookupCache == old(mailmapLookupCache)[original := author])
      ensures Author(name, email) in mailmapLookupCache && mailmapLookupCache[Author(name, email)] == author
      ensures forall a :: a in old(mailmapLookupCache) ==> a in mailmapLookupCache && mailmapLookupCache[a] == old(mailmapLookupCache)[a]
    {
      var originalAuthor := Author(name, email);
      if originalAuthor in mailmapLookupCache {
        return mailmapLookupCache[originalAuthor];
      }
      var identity := CanonicalIdentity(name, email, checkMailmap(repoPath, Query(name, email)));
      var mappedAuthor := Author(Some(identity.0), Some(identity.1));
      mailmapLookupCache := mailmapLookupCache[originalAuthor := mappedAuthor];
      return mappedAuthor;
    }
  }
}
