/** Reading a rendered where clause back. The reader follows string literals as section 7 of RFC 8259 defines
    them, which GraphQL shares, and knows nothing of how clauses are rendered. */
module ClauseReader {
  import opened Wrappers
  import opened IndexWhere

  // ---------- The reader ----------

  function HexValue(c: char): Option<nat> {
    if '0' <= c <= '9' then Some(c as int - '0' as int) else
    if 'a' <= c <= 'f' then Some(c as int - 'a' as int + 10) else None
  }

  /** The character a backslash and this one stand for. */
  function Shorthand(c: char): Option<char> {
    if c == '\"' || c == '\\' || c == '/' then Some(c) else
    if c == 'b' then Some(8 as char) else
    if c == 't' then Some('\t') else
    if c == 'n' then Some('\n') else
    if c == 'f' then Some(12 as char) else
    if c == 'r' then Some('\r') else None
  }

  /** The character four hexadecimal digits stand for; surrogates stand for none. */
  function CodePoint(a: char, b: char, c: char, d: char): Option<char> {
    if HexValue(a).None? || HexValue(b).None? || HexValue(c).None? || HexValue(d).None? then None else
    var n := ((HexValue(a).value * 16 + HexValue(b).value) * 16 + HexValue(c).value) * 16 + HexValue(d).value;
    if n < 0xD800 || 0xE000 <= n < 0x1_0000 then Some(n as char) else None
  }

  /** One character of a string literal, and the text after it; control characters may only come escaped. */
  function ReadChar(s: string): (r: Option<(char, string)>)
    requires s != []
    ensures r.Some? ==> |r.value.1| < |s|
  {
    if s[0] as int < 32 then None else
    if s[0] != '\\' then Some((s[0], s[1..])) else
    if |s| >= 6 && s[1] == 'u' then
      var c := CodePoint(s[2], s[3], s[4], s[5]);
      if c.None? then None else Some((c.value, s[6..]))
    else if |s| >= 2 && Shorthand(s[1]).Some? then Some((Shorthand(s[1]).value, s[2..])) else None
  }

  /** A string literal behind its opening quote, and the text behind its closing one. */
  function ReadQuoted(s: string): (r: Option<(string, string)>)
    ensures r.Some? ==> |r.value.1| < |s|
    decreases |s|
  {
    if s == [] then None else
    if s[0] == '\"' then Some(("", s[1..])) else
    var first := ReadChar(s);
    if first.None? then None else
    var rest := ReadQuoted(first.value.1);
    if rest.None? then None else Some(([first.value.0] + rest.value.0, rest.value.1))
  }

  function ReadDigits(n: nat, s: string): (r: (nat, string))
    ensures |r.1| <= |s|
    decreases |s|
  {
    if s != [] && '0' <= s[0] <= '9' then ReadDigits(n * 10 + (s[0] as int - '0' as int), s[1..]) else (n, s)
  }

  /** A list of string literals behind its opening bracket, and the text behind its closing one. */
  function ReadList(s: string): (r: Option<(seq<string>, string)>)
    ensures r.Some? ==> |r.value.1| < |s|
    decreases |s|
  {
    if s == [] then None else
    if s[0] == ']' then Some(([], s[1..])) else
    if s[0] != '\"' then None else
    var item := ReadQuoted(s[1..]);
    if item.None? || item.value.1 == [] then None else
    var (text, after) := item.value;
    if after[0] == ']' then Some(([text], after[1..])) else
    if !(", " <= after) then None else
    var rest := ReadList(after[2..]);
    if rest.None? then None else Some(([text] + rest.value.0, rest.value.1))
  }

  function ReadValue(s: string): (r: Option<(Value, string)>)
    ensures r.Some? ==> |r.value.1| <= |s|
  {
    if s == [] then None else
    if s[0] == '\"' then
      var text := ReadQuoted(s[1..]);
      if text.None? then None else Some((Text(text.value.0), text.value.1))
    else if s[0] == '[' then
      var texts := ReadList(s[1..]);
      if texts.None? then None else Some((Texts(texts.value.0), texts.value.1))
    else if s[0] == '-' then
      var (n, rest) := ReadDigits(0, s[1..]);
      Some((Number(0 - n), rest))
    else
      var (n, rest) := ReadDigits(0, s);
      Some((Number(n), rest))
  }

  /** A field name, up to its colon, and the text from there on. */
  function ReadField(s: string): (r: (string, string))
    ensures |r.1| <= |s|
    decreases |s|
  {
    if s == [] || s[0] == ':' then ("", s) else
    var (name, rest) := ReadField(s[1..]);
    ([s[0]] + name, rest)
  }

  /** The terms of a whole clause. */
  function ReadClause(s: string): Option<seq<Term>>
    decreases |s|
  {
    if s == [] then Some([]) else
    var (field, rest) := ReadField(s);
    if !(": " <= rest) then None else
    var value := ReadValue(rest[2..]);
    if value.None? then None else
    var term, after := Term(field, value.value.0), value.value.1;
    if after == [] then Some([term]) else
    if !(", " <= after) then None else
    var more := ReadClause(after[2..]);
    if more.None? then None else Some([term] + more.value)
  }

  // ---------- Values come back ----------

  lemma HexComesBack(n: nat)
    requires n < 16
    ensures HexValue(HEX[n]) == Some(n)
  {
  }

  lemma PairComesBack(high: char, low: char, h: nat, l: nat)
    requires h < 16 && HexValue(high) == Some(h) && HexValue(low) == Some(l) && l < 16
    ensures CodePoint('0', '0', high, low) == Some((h * 16 + l) as char)
  {
  }

  lemma HexPairComesBack(c: char)
    requires c as int < 256
    ensures CodePoint('0', '0', HEX[c as int % 256 / 16], HEX[c as int % 16]) == Some(c)
  {
    var n: nat := c as int;
    var h, l := n % 256 / 16, n % 16;
    HexComesBack(h);
    HexComesBack(l);
    PairComesBack(HEX[h], HEX[l], h, l);
    assert h * 16 + l == n;
  }

  lemma EscapeComesBack(c: char)
    ensures Escape(c) != [] && Escape(c)[0] != '\"' && ReadChar(Escape(c)) == Some((c, ""))
  {
    var e := Escape(c);
    if |e| == 6 {
      assert e[6..] == "";
      if c as int < 256 {
        HexPairComesBack(c);
      }
    } else if |e| == 2 {
      assert e[2..] == "";
    } else {
      assert e[1..] == "";
    }
  }

  /** Text behind a character changes nothing about reading it. */
  lemma ReadCharAhead(e: string, t: string)
    requires e != [] && ReadChar(e).Some? && ReadChar(e).value.1 == ""
    ensures ReadChar(e + t) == Some((ReadChar(e).value.0, t))
  {
    var s := e + t;
    assert s[|e|..] == t && forall k :: 0 <= k < |e| ==> s[k] == e[k];
    if e[0] != '\\' {
      assert |e[1..]| == 0;
    } else if |e| >= 6 && e[1] == 'u' {
      assert |e[6..]| == 0;
    } else {
      assert |e[2..]| == 0;
    }
  }

  lemma Regroup(a: string, b: string, c: string)
    ensures a + b + c == a + (b + c)
  {
  }

  lemma {:induction false} QuotedComesBack(text: string, t: string)
    ensures ReadQuoted(Escaped(text) + ("\"" + t)) == Some((text, t))
  {
    if text == [] {
      assert Escaped(text) + ("\"" + t) == "\"" + t;
      assert ("\"" + t)[1..] == t;
    } else {
      var rest := Escaped(text[1..]) + ("\"" + t);
      Regroup(Escape(text[0]), Escaped(text[1..]), "\"" + t);
      EscapeComesBack(text[0]);
      ReadCharAhead(Escape(text[0]), rest);
      QuotedComesBack(text[1..], t);
      assert text == [text[0]] + text[1..];
    }
  }

  lemma {:induction false} DigitsComeBack(n: nat, t: string)
    ensures ReadDigits(0, Digits(n) + t) == ReadDigits(n, t)
    ensures Digits(n) != [] && '0' <= Digits(n)[0] <= '9'
  {
    if n < 10 {
      assert (Digits(n) + t)[1..] == t;
    } else {
      var last := Digits(n % 10);
      assert Digits(n) + t == Digits(n / 10) + (last + t);
      DigitsComeBack(n / 10, last + t);
      assert (last + t)[1..] == t;
    }
  }

  lemma JoinSplit(parts: seq<string>)
    requires parts != []
    ensures Join(parts) == parts[0] + if |parts| == 1 then "" else ", " + Join(parts[1..])
  {
  }

  /** A literal opens with its quote and reads on to the text behind it. */
  lemma LiteralComesBack(text: string, behind: string)
    ensures var s := Quoted(text) + behind;
            && s != [] && s[0] == '\"' && ReadQuoted(s[1..]) == Some((text, behind))
  {
    var s := Quoted(text) + behind;
    Regroup(Escaped(text), "\"", behind);
    assert s[1..] == Escaped(text) + "\"" + behind;
    QuotedComesBack(text, behind);
  }

  lemma LastItemComesBack(text: string, t: string)
    ensures ReadList(Quoted(text) + ("]" + t)) == Some(([text], t))
  {
    LiteralComesBack(text, "]" + t);
    assert ("]" + t)[1..] == t;
  }

  lemma FirstItemComesBack(text: string, more: string)
    requires ReadList(more).Some?
    ensures ReadList(Quoted(text) + (", " + more)) == Some(([text] + ReadList(more).value.0, ReadList(more).value.1))
  {
    LiteralComesBack(text, ", " + more);
    assert (", " + more)[2..] == more;
  }

  lemma MoreParts(parts: seq<string>, tail: string)
    requires |parts| > 1
    ensures Join(parts) + tail == parts[0] + (", " + (Join(parts[1..]) + tail))
  {
    var more := Join(parts[1..]);
    JoinSplit(parts);
    Regroup(parts[0], ", " + more, tail);
    Regroup(", ", more, tail);
  }

  lemma {:induction false} ListComesBack(texts: seq<string>, t: string)
    ensures ReadList(Join(QuotedAll(texts)) + ("]" + t)) == Some((texts, t))
  {
    if texts == [] {
      assert "" + ("]" + t) == "]" + t && ("]" + t)[1..] == t;
    } else if |texts| == 1 {
      assert Join(QuotedAll(texts)) == Quoted(texts[0]);
      LastItemComesBack(texts[0], t);
      assert texts == [texts[0]];
    } else {
      MoreParts(QuotedAll(texts), "]" + t);
      assert QuotedAll(texts)[1..] == QuotedAll(texts[1..]);
      ListComesBack(texts[1..], t);
      FirstItemComesBack(texts[0], Join(QuotedAll(texts[1..])) + ("]" + t));
      assert texts == [texts[0]] + texts[1..];
    }
  }

  lemma TextsComeBack(texts: seq<string>, t: string)
    ensures ReadValue(Literal(Texts(texts)) + t) == Some((Texts(texts), t))
  {
    var items := Join(QuotedAll(texts));
    Regroup("[", items, "]");
    Regroup("[", items + "]", t);
    Regroup(items, "]", t);
    assert ("[" + (items + ("]" + t)))[1..] == items + ("]" + t);
    ListComesBack(texts, t);
  }

  lemma TextComesBack(text: string, t: string)
    ensures ReadValue(Literal(Text(text)) + t) == Some((Text(text), t))
  {
    LiteralComesBack(text, t);
  }

  lemma NumberComesBack(number: int, t: string)
    requires t == [] || t[0] == ','
    ensures ReadValue(Decimal(number) + t) == Some((Number(number), t))
  {
    var n: nat := if number < 0 then -number else number;
    DigitsComeBack(n, t);
    assert ReadDigits(n, t) == (n, t);
    if number < 0 {
      assert (Decimal(number) + t)[1..] == Digits(n) + t;
    }
  }

  lemma ValueComesBack(value: Value, t: string)
    requires t == [] || t[0] == ','
    ensures ReadValue(Literal(value) + t) == Some((value, t))
  {
    match value
    case Text(text) => TextComesBack(text, t);
    case Texts(texts) => TextsComeBack(texts, t);
    case Number(number) => NumberComesBack(number, t);
  }

  // ---------- Clauses come back ----------

  /** Field names hold no colon, and are neither of the two a clause adds itself. */
  ghost predicate OwnFields(terms: seq<Term>) {
    forall term :: term in terms ==> ':' !in term.field && term.field != "id_starts_with" && term.field != "id_gt"
  }

  lemma {:induction false} FieldComesBack(field: string, t: string)
    requires ':' !in field && t != [] && t[0] == ':'
    ensures ReadField(field + t) == (field, t)
  {
    if field == [] {
      assert field + t == t;
    } else {
      assert (field + t)[1..] == field[1..] + t;
      FieldComesBack(field[1..], t);
      assert field == [field[0]] + field[1..];
    }
  }

  /** One term of a clause, and what its reader then looks at. */
  lemma TermComesBack(term: Term, behind: string)
    requires ':' !in term.field && (behind == [] || behind[0] == ',')
    ensures var s := term.field + ": " + Literal(term.value) + behind;
            && s != [] && ReadField(s).0 == term.field && ": " <= ReadField(s).1
            && ReadValue(ReadField(s).1[2..]) == Some((term.value, behind))
  {
    var valued := Literal(term.value) + behind;
    assert term.field + ": " + Literal(term.value) + behind == term.field + (": " + valued);
    FieldComesBack(term.field, ": " + valued);
    assert (": " + valued)[2..] == valued;
    ValueComesBack(term.value, behind);
  }

  lemma LastTermComesBack(term: Term)
    requires ':' !in term.field
    ensures ReadClause(term.field + ": " + Literal(term.value)) == Some([term])
  {
    var s := term.field + ": " + Literal(term.value);
    assert s == s + "";
    TermComesBack(term, "");
  }

  lemma FirstTermComesBack(term: Term, more: string)
    requires ':' !in term.field && ReadClause(more).Some?
    ensures ReadClause(term.field + ": " + Literal(term.value) + (", " + more)) == Some([term] + ReadClause(more).value)
  {
    TermComesBack(term, ", " + more);
    assert (", " + more)[2..] == more;
  }

  lemma {:induction false} TermsComeBack(terms: seq<Term>)
    requires forall term :: term in terms ==> ':' !in term.field
    ensures ReadClause(Join(RenderTerms(terms))) == Some(terms)
  {
    if terms != [] {
      var parts, rest := RenderTerms(terms), terms[1..];
      assert parts == [terms[0].field + ": " + Literal(terms[0].value)] + RenderTerms(rest);
      JoinSplit(parts);
      if |terms| == 1 {
        LastTermComesBack(terms[0]);
        assert Join(parts) == parts[0] && terms == [terms[0]];
      } else {
        assert parts[1..] == RenderTerms(rest);
        TermsComeBack(rest);
        FirstTermComesBack(terms[0], Join(RenderTerms(rest)));
        assert terms == [terms[0]] + rest;
      }
    }
  }

  /** The term a text constraint adds to a clause: none when the text is empty. */
  ghost function Constraint(field: string, text: string): seq<Term> {
    if text == "" then [] else [Term(field, Text(text))]
  }

  /** What a page's clause asks: the caller's terms, ids under the prefix, and ids past the cursor. */
  ghost function Asked(where: Where, after: string): seq<Term> {
    where.terms + Constraint("id_starts_with", where.prefix) + Constraint("id_gt", after)
  }

  lemma {:induction false} RenderedTogether(a: seq<Term>, b: seq<Term>)
    ensures RenderTerms(a + b) == RenderTerms(a) + RenderTerms(b)
  {
    if a == [] {
      assert a + b == b;
    } else {
      assert (a + b)[1..] == a[1..] + b;
      RenderedTogether(a[1..], b);
    }
  }

  lemma ConstraintRendered(field: string, text: string)
    ensures RenderTerms(Constraint(field, text)) == if text == "" then [] else [field + ": " + Quoted(text)]
  {
    if text != "" {
      assert Constraint(field, text)[1..] == [];
    }
  }

  lemma PartsAreRendered(where: Where)
    ensures Parts(where) == RenderTerms(where.terms + Constraint("id_starts_with", where.prefix))
  {
    RenderedTogether(where.terms, Constraint("id_starts_with", where.prefix));
    ConstraintRendered("id_starts_with", where.prefix);
    SameLabel("id_starts_with: ", "id_starts_with", where.prefix);
  }

  lemma RenderIsJoined(where: Where, after: string)
    ensures Render(where, after) == Join(RenderTerms(Asked(where, after)))
  {
    PartsAreRendered(where);
    RenderedTogether(where.terms + Constraint("id_starts_with", where.prefix), Constraint("id_gt", after));
    ConstraintRendered("id_gt", after);
    SameLabel("id_gt: ", "id_gt", after);
  }

  lemma SameLabel(labelled: string, field: string, text: string)
    requires labelled == field + ": "
    ensures labelled + Quoted(text) == field + ": " + Quoted(text)
  {
  }

  lemma AskedWithoutColons(where: Where, after: string)
    requires OwnFields(where.terms)
    ensures forall term :: term in Asked(where, after) ==> ':' !in term.field
  {
    assert ':' !in "id_starts_with" && ':' !in "id_gt";
  }

  /** Whoever reads a rendered clause reads exactly what it asks, whatever characters its values hold. */
  lemma ClauseReadsBack(where: Where, after: string)
    requires OwnFields(where.terms)
    ensures ReadClause(Render(where, after)) == Some(Asked(where, after))
  {
    RenderIsJoined(where, after);
    AskedWithoutColons(where, after);
    TermsComeBack(Asked(where, after));
  }

  /** From the n-th term on, and only from there, the terms are those a clause adds itself. */
  ghost predicate OwnUpTo(asked: seq<Term>, n: nat) {
    n <= |asked|
    && forall k :: 0 <= k < |asked| ==> (asked[k].field == "id_starts_with" || asked[k].field == "id_gt" <==> n <= k)
  }

  lemma ConstraintsComeLast(where: Where, after: string)
    requires OwnFields(where.terms)
    ensures var asked, n := Asked(where, after), |where.terms|;
            && OwnUpTo(asked, n) && asked[..n] == where.terms
            && asked[n..] == Constraint("id_starts_with", where.prefix) + Constraint("id_gt", after)
  {
  }

  lemma OwnEndOnce(asked: seq<Term>, n: nat, m: nat)
    requires n < m && OwnUpTo(asked, n)
    ensures !OwnUpTo(asked, m)
  {
    if m <= |asked| {
      assert asked[n].field == "id_starts_with" || asked[n].field == "id_gt";
    }
  }

  /** So clauses that ask for different rows are different texts. */
  lemma DifferentClausesDiffer(where: Where, after: string, where': Where, after': string)
    requires OwnFields(where.terms) && OwnFields(where'.terms)
    requires Render(where, after) == Render(where', after')
    ensures where == where' && after == after'
  {
    ClauseReadsBack(where, after);
    ClauseReadsBack(where', after');
    SameQuestion(where, after, where', after');
  }

  lemma SameQuestion(where: Where, after: string, where': Where, after': string)
    requires OwnFields(where.terms) && OwnFields(where'.terms) && Asked(where, after) == Asked(where', after')
    ensures where == where' && after == after'
  {
    ConstraintsComeLast(where, after);
    ConstraintsComeLast(where', after');
    if |where.terms| < |where'.terms| {
      OwnEndOnce(Asked(where, after), |where.terms|, |where'.terms|);
    } else if |where'.terms| < |where.terms| {
      OwnEndOnce(Asked(where, after), |where'.terms|, |where.terms|);
    }
    SameConstraints(where.prefix, after, where'.prefix, after');
  }

  lemma SameConstraints(prefix: string, after: string, prefix': string, after': string)
    requires Constraint("id_starts_with", prefix) + Constraint("id_gt", after)
             == Constraint("id_starts_with", prefix') + Constraint("id_gt", after')
    ensures prefix == prefix' && after == after'
  {
    assert |"id_starts_with"| != |"id_gt"|;
    var both := Constraint("id_starts_with", prefix) + Constraint("id_gt", after);
    assert both != [] ==> both[0].field == if prefix != "" then "id_starts_with" else "id_gt";
    assert both != [] ==> both[0].field == if prefix' != "" then "id_starts_with" else "id_gt";
    assert prefix != "" ==> both[0].value == Text(prefix);
    assert prefix' != "" ==> both[0].value == Text(prefix');
    assert after != "" ==> both[|both| - 1] == Term("id_gt", Text(after));
    assert after' != "" ==> both[|both| - 1] == Term("id_gt", Text(after'));
    assert both != [] ==> both[|both| - 1].field == if after != "" then "id_gt" else "id_starts_with";
    assert both != [] ==> both[|both| - 1].field == if after' != "" then "id_gt" else "id_starts_with";
  }
}
