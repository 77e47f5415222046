/** Where clauses as text, and the memo key a presence probe is shared under. */
module IndexWhere {
  import opened Wrappers

  datatype Value = Text(text: string) | Number(number: int) | Texts(texts: seq<string>)

  datatype Term = Term(field: string, value: Value)

  datatype Where = Where(prefix: string, terms: seq<Term>)

  // ---------- Rendering ----------

  function Digits(n: nat): string {
    if n < 10 then [('0' as int + n) as char] else Digits(n / 10) + Digits(n % 10)
  }

  function Decimal(n: int): string {
    if n < 0 then "-" + Digits(-n) else Digits(n)
  }

  const HEX := "0123456789abcdef"

  /** A character inside a JSON string, as Go's encoder writes it. */
  function Escape(c: char): string {
    if c == '\"' then "\\\"" else
    if c == '\\' then "\\\\" else
    if c == '\n' then "\\n" else
    if c == '\r' then "\\r" else
    if c == '\t' then "\\t" else
    if c as int == 8 then "\\b" else
    if c as int == 12 then "\\f" else
    if c as int == 0x2028 then "\\u2028" else
    if c as int == 0x2029 then "\\u2029" else
    if c as int < 32 || c in "<>&" then "\\u00" + [HEX[c as int % 256 / 16], HEX[c as int % 16]] else
    [c]
  }

  function Escaped(s: string): string {
    if s == [] then [] else Escape(s[0]) + Escaped(s[1..])
  }

  function Quoted(s: string): string {
    "\"" + Escaped(s) + "\""
  }

  function Join(parts: seq<string>): string {
    if parts == [] then "" else
    if |parts| == 1 then parts[0] else parts[0] + ", " + Join(parts[1..])
  }

  function QuotedAll(items: seq<string>): (r: seq<string>)
    ensures |r| == |items|
  {
    if items == [] then [] else [Quoted(items[0])] + QuotedAll(items[1..])
  }

  function Literal(value: Value): string {
    match value
    case Text(text) => Quoted(text)
    case Number(number) => Decimal(number)
    case Texts(texts) => "[" + Join(QuotedAll(texts)) + "]"
  }

  function RenderTerms(terms: seq<Term>): (r: seq<string>)
    ensures |r| == |terms|
  {
    if terms == [] then [] else [terms[0].field + ": " + Literal(terms[0].value)] + RenderTerms(terms[1..])
  }

  function Parts(where: Where): seq<string> {
    RenderTerms(where.terms) + if where.prefix != "" then ["id_starts_with: " + Quoted(where.prefix)] else []
  }

  /** A clause's text, for a page that resumes behind the row named `after` or, without one, from the start. */
  function Render(where: Where, after: string): string {
    Join(Parts(where) + if after != "" then ["id_gt: " + Quoted(after)] else [])
  }

  lemma {:induction false} JoinOneMore(parts: seq<string>, last: string)
    requires parts != []
    ensures Join(parts + [last]) == Join(parts) + ", " + last
  {
    if |parts| > 1 {
      JoinOneMore(parts[1..], last);
      assert (parts + [last])[1..] == parts[1..] + [last];
    }
  }

  lemma NothingMore(parts: seq<string>)
    ensures parts + [] == parts
  {
  }

  /** A page's clause is the probe's clause with its cursor appended, so both select the same rows. */
  lemma CursorOnlyExtends(where: Where, after: string)
    requires after != "" && (where.prefix != "" || where.terms != [])
    ensures Render(where, after) == Render(where, "") + ", " + ("id_gt: " + Quoted(after))
  {
    var cursor := "id_gt: " + Quoted(after);
    JoinOneMore(Parts(where), cursor);
    NothingMore(Parts(where));
  }

  // ---------- Braces outside quotes ----------

  datatype Mode = Outside | Inside | AfterBackslash

  /** A reader that tracks quoting; it has no next mode when it meets a closing brace outside quotes. */
  function Next(mode: Mode, c: char): Option<Mode> {
    match mode
    case Outside => if c == '}' then None else if c == '\"' then Some(Inside) else Some(Outside)
    case Inside => if c == '\\' then Some(AfterBackslash) else if c == '\"' then Some(Outside) else Some(Inside)
    case AfterBackslash => Some(Inside)
  }

  function Read(mode: Mode, s: string): Option<Mode>
    decreases |s|
  {
    if s == [] then Some(mode) else
    match Next(mode, s[0])
    case None => None
    case Some(next) => Read(next, s[1..])
  }

  /** Text whose quotes all close and whose closing braces are all quoted. */
  predicate Closed(s: string) {
    Read(Outside, s) == Some(Outside)
  }

  lemma {:induction false} ReadAppend(mode: Mode, s: string, t: string)
    ensures Read(mode, s + t) == match Read(mode, s) case None => None case Some(next) => Read(next, t)
    decreases |s|
  {
    if s == [] {
      assert s + t == t;
    } else {
      assert (s + t)[1..] == s[1..] + t;
      match Next(mode, s[0])
      case None =>
      case Some(next) => ReadAppend(next, s[1..], t);
    }
  }

  lemma ClosedAppend(s: string, t: string)
    requires Closed(s) && Closed(t)
    ensures Closed(s + t)
  {
    ReadAppend(Outside, s, t);
  }

  predicate Bare(s: string) {
    forall c :: c in s ==> c != '\"' && c != '}'
  }

  lemma {:induction false} BareIsClosed(s: string)
    requires Bare(s)
    ensures Closed(s)
  {
    if s != [] {
      assert s[0] in s && forall c :: c in s[1..] ==> c in s;
      BareIsClosed(s[1..]);
    }
  }

  lemma {:induction false} PlainStaysInside(s: string)
    requires forall d :: d in s ==> d != '\"' && d != '\\'
    ensures Read(Inside, s) == Some(Inside)
  {
    if s != [] {
      assert s[0] in s && forall d :: d in s[1..] ==> d in s;
      PlainStaysInside(s[1..]);
    }
  }

  /** A backslash and one character, then characters that mean nothing to the reader. */
  lemma BackslashStaysInside(c: char, rest: string)
    requires forall d :: d in rest ==> d != '\"' && d != '\\'
    ensures Read(Inside, "\\" + [c] + rest) == Some(Inside)
  {
    var s := "\\" + [c] + rest;
    assert s[1..] == [c] + rest && ([c] + rest)[1..] == rest;
    assert Read(AfterBackslash, s[1..]) == Read(Inside, rest);
    PlainStaysInside(rest);
  }

  lemma EscapeStaysInside(c: char)
    ensures Read(Inside, Escape(c)) == Some(Inside)
  {
    var e := Escape(c);
    if e[0] == '\\' {
      forall d | d in e[2..] ensures d != '\"' && d != '\\' {
        assert d in HEX;
      }
      assert e == "\\" + [e[1]] + e[2..];
      BackslashStaysInside(e[1], e[2..]);
    } else {
      assert e[1..] == [];
    }
  }

  lemma {:induction false} EscapedStaysInside(s: string)
    ensures Read(Inside, Escaped(s)) == Some(Inside)
  {
    if s != [] {
      EscapeStaysInside(s[0]);
      EscapedStaysInside(s[1..]);
      ReadAppend(Inside, Escape(s[0]), Escaped(s[1..]));
    }
  }

  lemma QuotedIsClosed(s: string)
    ensures Closed(Quoted(s))
  {
    EscapedStaysInside(s);
    ReadAppend(Inside, Escaped(s), "\"");
    assert Quoted(s)[1..] == Escaped(s) + "\"";
  }

  lemma {:induction false} DigitsAreBare(n: nat)
    ensures Bare(Digits(n))
  {
    if n >= 10 {
      DigitsAreBare(n / 10);
      DigitsAreBare(n % 10);
    }
  }

  lemma {:induction false} JoinIsClosed(parts: seq<string>)
    requires forall part :: part in parts ==> Closed(part)
    ensures Closed(Join(parts))
  {
    if |parts| > 1 {
      JoinIsClosed(parts[1..]);
      BareIsClosed(", ");
      ClosedAppend(parts[0], ", ");
      ClosedAppend(parts[0] + ", ", Join(parts[1..]));
    }
  }

  lemma {:induction false} QuotedAllAreClosed(items: seq<string>)
    ensures forall part :: part in QuotedAll(items) ==> Closed(part)
  {
    if items != [] {
      QuotedIsClosed(items[0]);
      QuotedAllAreClosed(items[1..]);
    }
  }

  lemma LiteralIsClosed(value: Value)
    ensures Closed(Literal(value))
  {
    match value
    case Text(text) => QuotedIsClosed(text);
    case Number(number) =>
      DigitsAreBare(if number < 0 then -number else number);
      BareIsClosed(Decimal(number));
    case Texts(texts) =>
      QuotedAllAreClosed(texts);
      JoinIsClosed(QuotedAll(texts));
      BareIsClosed("[");
      BareIsClosed("]");
      ClosedAppend("[", Join(QuotedAll(texts)));
      ClosedAppend("[" + Join(QuotedAll(texts)), "]");
  }

  /** Field names are plain words. */
  ghost predicate PlainTerms(terms: seq<Term>) {
    forall term :: term in terms ==> Bare(term.field)
  }

  lemma {:induction false} TermsAreClosed(terms: seq<Term>)
    requires PlainTerms(terms)
    ensures forall part :: part in RenderTerms(terms) ==> Closed(part)
  {
    if terms != [] {
      TermsAreClosed(terms[1..]);
      BareIsClosed(terms[0].field);
      BareIsClosed(": ");
      LiteralIsClosed(terms[0].value);
      ClosedAppend(terms[0].field, ": ");
      ClosedAppend(terms[0].field + ": ", Literal(terms[0].value));
    }
  }

  /** Whatever its values, its prefix and its cursor hold, a rendered clause cannot be cut short by a brace
      in one of them. */
  lemma RenderIsClosed(where: Where, after: string)
    requires PlainTerms(where.terms)
    ensures Closed(Render(where, after))
  {
    TermsAreClosed(where.terms);
    QuotedIsClosed(where.prefix);
    BareIsClosed("id_starts_with: ");
    ClosedAppend("id_starts_with: ", Quoted(where.prefix));
    QuotedIsClosed(after);
    BareIsClosed("id_gt: ");
    ClosedAppend("id_gt: ", Quoted(after));
    JoinIsClosed(Parts(where) + if after != "" then ["id_gt: " + Quoted(after)] else []);
  }

  // ---------- The memo key ----------

  /** One entity of a probe with its rendered clause on every chain of the index. */
  datatype Field = Field(entity: string, clauses: seq<string>)

  function Braced(clauses: seq<string>): string {
    if clauses == [] then "" else "{" + clauses[0] + "}" + Braced(clauses[1..])
  }

  function FieldsText(fields: seq<Field>): string {
    if fields == [] then "" else "/" + fields[0].entity + Braced(fields[0].clauses) + FieldsText(fields[1..])
  }

  function PresenceKey(name: string, fields: seq<Field>, url: string, account: string): string {
    name + FieldsText(fields) + "@" + url + "@" + account
  }

  predicate IsDelimiter(c: char) {
    c == '/' || c == '{' || c == '@'
  }

  ghost predicate Plain(s: string) {
    forall c :: c in s ==> !IsDelimiter(c)
  }

  ghost predicate WellNamed(fields: seq<Field>, chains: nat) {
    forall field :: field in fields ==>
      Plain(field.entity) && |field.clauses| == chains && forall clause :: clause in field.clauses ==> Closed(clause)
  }

  /** Two texts that start with plain words ended by delimiters start with the same word. */
  lemma SameWord(e: string, r: string, e': string, r': string)
    requires Plain(e) && Plain(e') && r != [] && r' != [] && IsDelimiter(r[0]) && IsDelimiter(r'[0])
    requires e + r == e' + r'
    ensures e == e' && r == r'
  {
    var whole := e + r;
    assert whole[|e|] == r[0] && forall k :: 0 <= k < |e| ==> whole[k] in e;
    assert whole[|e'|] == r'[0] && forall k :: 0 <= k < |e'| ==> whole[k] in e';
    SplitAt(e, r, e', r');
  }

  lemma SplitAt(a: string, b: string, c: string, d: string)
    requires a + b == c + d && |a| == |c|
    ensures a == c && b == d
  {
    assert a == (a + b)[..|a|] && c == (c + d)[..|a|];
    assert b == (a + b)[|a|..] && d == (c + d)[|a|..];
  }

  lemma NoEarlierBrace(c: string, t: string, d: string, u: string)
    requires Closed(c) && Closed(d) && c + "}" + t == d + "}" + u
    ensures |d| <= |c|
  {
    if |c| < |d| {
      var whole := c + "}" + t;
      assert d == whole[..|d|] == (d + "}" + u)[..|d|];
      assert d[..|c|] == c && d[|c|] == '}';
      assert d == c + d[|c|..] && d[|c|..][0] == '}';
      ReadAppend(Outside, c, d[|c|..]);
    }
  }

  /** The brace that ends a clause is the first unquoted one, so equal texts hold equal clauses. */
  lemma SameClause(c: string, t: string, d: string, u: string)
    requires Closed(c) && Closed(d) && c + "}" + t == d + "}" + u
    ensures c == d && t == u
  {
    NoEarlierBrace(c, t, d, u);
    NoEarlierBrace(d, u, c, t);
    assert c + ("}" + t) == c + "}" + t && d + ("}" + u) == d + "}" + u;
    SplitAt(c, "}" + t, d, "}" + u);
    SplitAt("}", t, "}", u);
  }

  lemma {:induction false} SameClauses(cs: seq<string>, t: string, ds: seq<string>, u: string)
    requires |cs| == |ds| && Braced(cs) + t == Braced(ds) + u
    requires (forall c :: c in cs ==> Closed(c)) && (forall d :: d in ds ==> Closed(d))
    ensures cs == ds && t == u
  {
    if cs == [] {
      assert Braced(cs) + t == t && Braced(ds) + u == u;
    } else {
      var t', u' := Braced(cs[1..]) + t, Braced(ds[1..]) + u;
      assert Braced(cs) + t == "{" + (cs[0] + "}" + t');
      assert Braced(ds) + u == "{" + (ds[0] + "}" + u');
      SplitAt("{", cs[0] + "}" + t', "{", ds[0] + "}" + u');
      SameClause(cs[0], t', ds[0], u');
      SameClauses(cs[1..], t, ds[1..], u);
      assert cs == [cs[0]] + cs[1..] && ds == [ds[0]] + ds[1..];
    }
  }

  lemma {:induction false} SameFields(fs: seq<Field>, t: string, gs: seq<Field>, u: string, chains: nat)
    requires WellNamed(fs, chains) && WellNamed(gs, chains)
    requires FieldsText(fs) + "@" + t == FieldsText(gs) + "@" + u
    ensures fs == gs && t == u
  {
    var whole := FieldsText(fs) + "@" + t;
    assert whole[0] == (if fs == [] then '@' else '/');
    assert whole[0] == (if gs == [] then '@' else '/');
    if fs == [] {
      assert whole == "@" + t == "@" + u;
      SplitAt("@", t, "@", u);
    } else {
      var t', u' := FieldsText(fs[1..]) + "@" + t, FieldsText(gs[1..]) + "@" + u;
      FieldFirst(fs, t);
      FieldFirst(gs, u);
      SameFirstField(fs[0], t', gs[0], u');
      SameFields(fs[1..], t, gs[1..], u, chains);
      assert fs == [fs[0]] + fs[1..] && gs == [gs[0]] + gs[1..];
    }
  }

  lemma FieldFirst(fields: seq<Field>, t: string)
    requires fields != []
    ensures var rest := FieldsText(fields[1..]) + "@" + t;
            && FieldsText(fields) + "@" + t == "/" + (fields[0].entity + (Braced(fields[0].clauses) + rest))
            && rest != [] && IsDelimiter(rest[0])
  {
  }

  lemma SameFirstField(f: Field, t: string, g: Field, u: string)
    requires Plain(f.entity) && Plain(g.entity) && |f.clauses| == |g.clauses|
    requires (forall c :: c in f.clauses ==> Closed(c)) && (forall c :: c in g.clauses ==> Closed(c))
    requires t != [] && u != [] && IsDelimiter(t[0]) && IsDelimiter(u[0])
    requires "/" + (f.entity + (Braced(f.clauses) + t)) == "/" + (g.entity + (Braced(g.clauses) + u))
    ensures f == g && t == u
  {
    SplitAt("/", f.entity + (Braced(f.clauses) + t), "/", g.entity + (Braced(g.clauses) + u));
    SameWord(f.entity, Braced(f.clauses) + t, g.entity, Braced(g.clauses) + u);
    SameClauses(f.clauses, t, g.clauses, u);
  }

  /** A memo key names the index, every clause the probe asks, and the account: reads of the same index
      that share a key ask for the same rows, and reads of two differently named indexes never share one. */
  lemma PresenceKeyIsInjective(
    name: string, fields: seq<Field>, url: string, account: string,
    name': string, fields': seq<Field>, url': string, account': string, chains: nat)
    requires Plain(name) && Plain(name') && WellNamed(fields, chains)
    requires name == name' ==> WellNamed(fields', chains) && url == url'
    requires PresenceKey(name, fields, url, account) == PresenceKey(name', fields', url', account')
    ensures name == name' && fields == fields' && account == account'
  {
    var t, t' := url + "@" + account, url' + "@" + account';
    var r, r' := FieldsText(fields) + "@" + t, FieldsText(fields') + "@" + t';
    assert PresenceKey(name, fields, url, account) == name + r;
    assert PresenceKey(name', fields', url', account') == name' + r';
    assert IsDelimiter(r[0]) && IsDelimiter(r'[0]);
    SameWord(name, r, name', r');
    SameFields(fields, t, fields', t', chains);
    assert t == (url + "@") + account && t' == (url' + "@") + account';
    SplitAt(url + "@", account, url' + "@", account');
  }
}
