/**
 * The quoting in utils/ssh.py.  `create_user_over_ssh` quotes user names and
 * the chpasswd line with `shlex.quote`, and `sudo_cmd` wraps a whole script
 * as the single argument of `bash -lc`.  Whether a script reaches `bash`
 * intact is decided by the bootstrap user's login shell, which reads the
 * text `ssh_exec` sends; `ReadWord` is that reading for one word.
 */
module Shell {
  import opened Wrappers
  import opened Text

  /** The characters `shlex.quote` leaves as they are: ASCII `\w` and `@%+=:,./-`. */
  predicate IsSafe(c: char) {
    IsAsciiLetter(c) || IsDigit(c) || c in "_@%+=:,./-"
  }

  predicate AllSafe(s: string) {
    forall i :: 0 <= i < |s| ==> IsSafe(s[i])
  }

  /** Inside single quotes, every `'` becomes `'"'"'`: close, a double-quoted `'`, reopen. */
  function QuoteInside(s: string): string {
    if s == [] then [] else (if s[0] == '\'' then "'\"'\"'" else [s[0]]) + QuoteInside(s[1..])
  }

  /** Python's `shlex.quote`. */
  function ShellQuote(s: string): string {
    if s == [] then "''"
    else if AllSafe(s) then s
    else "'" + QuoteInside(s) + "'"
  }

  // ------------------------------------------------------- the remote shell

  /** Where the reader is: outside quotes, inside '...', inside "...". */
  datatype Mode = Plain | InSingle | InDouble

  function Prefix(p: string, o: Option<string>): Option<string> {
    match o
    case None => None
    case Some(w) => Some(p + w)
  }

  /**
   * How a POSIX shell reads `s` as one word, from mode `m`: quote removal,
   * backslash escapes, and the expansion of `$1`..`$9`, which are empty
   * because sshd hands the command line to the login shell with `-c` and no
   * further arguments.  `None` where the text is not one word (an unquoted
   * blank or operator, an unterminated quote) or does something the reader
   * does not follow (another `$` expansion, a command substitution, a glob).
   */
  function Read(m: Mode, s: string): Option<string>
    decreases |s|
  {
    if s == [] then (if m == Plain then Some([]) else None)
    else
      var c, rest := s[0], s[1..];
      match m
      case Plain =>
        if c == '\'' then Read(InSingle, rest)
        else if c == '"' then Read(InDouble, rest)
        else if c == '\\' then
          if rest == [] then None
          else if rest[0] == '\n' then Read(Plain, rest[1..])
          else Prefix([rest[0]], Read(Plain, rest[1..]))
        else if IsSafe(c) then Prefix([c], Read(Plain, rest))
        else None
      case InSingle =>
        if c == '\'' then Read(Plain, rest) else Prefix([c], Read(InSingle, rest))
      case InDouble =>
        if c == '"' then Read(Plain, rest)
        else if c == '\\' then
          if rest == [] then None
          else if rest[0] in "$`\"\\" then Prefix([rest[0]], Read(InDouble, rest[1..]))
          else if rest[0] == '\n' then Read(InDouble, rest[1..])
          else Prefix("\\", Read(InDouble, rest))
        else if c == '$' then
          if rest != [] && '1' <= rest[0] <= '9' then Read(InDouble, rest[1..]) else None
        else if c == '`' then None
        else Prefix([c], Read(InDouble, rest))
  }

  /** The word the shell makes of `s`. */
  function ReadWord(s: string): Option<string> {
    Read(Plain, s)
  }

  // ------------------------------------------------------------ Python repr

  function HexDigit(d: nat): char
    requires d < 16
  {
    if d < 10 then DigitChar(d) else ('a' as int + d - 10) as char
  }

  /** The quote `repr` chooses: `"` when the text holds `'` but no `"`, `'` otherwise. */
  function ReprQuote(s: string): char {
    if '\'' in s && '"' !in s then '"' else '\''
  }

  /** One character as `repr` writes it between quotes `q`. */
  function ReprChar(c: char, q: char): string {
    if c == q || c == '\\' then ['\\', c]
    else if c == '\t' then "\\t"
    else if c == '\n' then "\\n"
    else if c == '\r' then "\\r"
    else if c < ' ' || '\U{7F}' <= c <= '\U{A0}' || c == '\U{AD}' then "\\x" + [HexDigit(c as nat / 16), HexDigit(c as nat % 16)]
    else [c]
  }

  function ReprBody(s: string, q: char): string {
    if s == [] then [] else ReprChar(s[0], q) + ReprBody(s[1..], q)
  }

  /** Python's `repr` of a `str`, which the f-string's `!r` applies. */
  function PyRepr(s: string): string {
    var q := ReprQuote(s);
    [q] + ReprBody(s, q) + [q]
  }

  // --------------------------------------------------------------- sudo_cmd

  const SudoPrefix := "sudo -n bash -lc "

  /** `sudo_cmd` as written: the script is embedded with Python's `repr`. */
  function SudoCmdAsWritten(script: string): (r: string)
    ensures SudoPrefix <= r
  {
    SudoPrefix + PyRepr(script)
  }

  /** `sudo_cmd` as intended: the script is embedded with `shlex.quote`. */
  function SudoCmd(script: string): (r: string)
    ensures SudoPrefix <= r
  {
    SudoPrefix + ShellQuote(script)
  }

  // ------------------------------------------------------------- lemmas

  lemma PrefixEmpty(o: Option<string>)
    ensures Prefix([], o) == o
  {
    if o.Some? {
      assert [] + o.value == o.value;
    }
  }

  lemma PrefixPrefix(a: string, b: string, o: Option<string>)
    ensures Prefix(a, Prefix(b, o)) == Prefix(a + b, o)
  {
    if o.Some? {
      assert a + (b + o.value) == (a + b) + o.value;
    }
  }

  /** A character the reader in mode `m` copies to the word as it is. */
  predicate Literal(m: Mode, c: char) {
    match m
    case Plain => IsSafe(c)
    case InSingle => c != '\''
    case InDouble => c !in "\"\\$`"
  }

  lemma ReadStep(m: Mode, c: char, r: string)
    requires Literal(m, c)
    ensures Read(m, [c] + r) == Prefix([c], Read(m, r))
  {
    assert ([c] + r)[0] == c && ([c] + r)[1..] == r;
  }

  lemma ReadEnterSingle(r: string)
    ensures Read(Plain, "'" + r) == Read(InSingle, r)
  {
    assert ("'" + r)[0] == '\'' && ("'" + r)[1..] == r;
  }

  lemma ReadLeaveSingle(r: string)
    ensures Read(InSingle, "'" + r) == Read(Plain, r)
  {
    assert ("'" + r)[0] == '\'' && ("'" + r)[1..] == r;
  }

  lemma ReadEnterDouble(r: string)
    ensures Read(Plain, "\"" + r) == Read(InDouble, r)
  {
    assert ("\"" + r)[0] == '"' && ("\"" + r)[1..] == r;
  }

  lemma ReadLeaveDouble(r: string)
    ensures Read(InDouble, "\"" + r) == Read(Plain, r)
  {
    assert ("\"" + r)[0] == '"' && ("\"" + r)[1..] == r;
  }

  /** A run of literal characters is copied to the word, whatever follows it. */
  lemma {:induction false} ReadLiterals(m: Mode, s: string, t: string)
    requires forall i :: 0 <= i < |s| ==> Literal(m, s[i])
    ensures Read(m, s + t) == Prefix(s, Read(m, t))
  {
    if s == [] {
      assert s + t == t;
      PrefixEmpty(Read(m, t));
    } else {
      assert s + t == [s[0]] + (s[1..] + t);
      ReadStep(m, s[0], s[1..] + t);
      ReadLiterals(m, s[1..], t);
      PrefixPrefix([s[0]], s[1..], Read(m, t));
      assert [s[0]] + s[1..] == s;
    }
  }

  /** The five characters that stand for one `'` inside single quotes. */
  lemma ReadEscapedQuote(r: string)
    ensures Read(InSingle, "'\"'\"'" + r) == Prefix("'", Read(InSingle, r))
  {
    assert "'\"'\"'" + r == "'" + ("\"" + ("'" + ("\"" + ("'" + r))));
    ReadLeaveSingle("\"" + ("'" + ("\"" + ("'" + r))));
    ReadEnterDouble("'" + ("\"" + ("'" + r)));
    ReadStep(InDouble, '\'', "\"" + ("'" + r));
    ReadLeaveDouble("'" + r);
    ReadEnterSingle(r);
  }

  lemma {:induction false} ReadQuoteInside(s: string, t: string)
    ensures Read(InSingle, QuoteInside(s) + t) == Prefix(s, Read(InSingle, t))
  {
    if s == [] {
      assert QuoteInside(s) + t == t;
      PrefixEmpty(Read(InSingle, t));
    } else {
      var rest := QuoteInside(s[1..]) + t;
      if s[0] == '\'' {
        assert QuoteInside(s) + t == "'\"'\"'" + rest;
        ReadEscapedQuote(rest);
      } else {
        assert QuoteInside(s) + t == [s[0]] + rest;
        ReadStep(InSingle, s[0], rest);
      }
      ReadQuoteInside(s[1..], t);
      PrefixPrefix([s[0]], s[1..], Read(InSingle, t));
      assert [s[0]] + s[1..] == s;
    }
  }

  /** `shlex.quote` is right for the shell: every text reads back as exactly itself. */
  lemma ShellQuoteReadsBack(s: string)
    ensures ReadWord(ShellQuote(s)) == Some(s)
  {
    if s == [] {
      assert ReadWord("''") == Read(InSingle, "'");
    } else if AllSafe(s) {
      ReadLiterals(Plain, s, []);
      assert s + [] == s;
    } else {
      ReadQuoteInside(s, "'");
      assert ShellQuote(s) == "'" + (QuoteInside(s) + "'");
      assert Read(InSingle, "'") == Some([]);
      assert s + [] == s;
    }
  }

  /** An alphanumeric name, the only kind `create_user_over_ssh` lets through, is left unquoted. */
  lemma AlnumUnquoted(u: string)
    requires IsAlnum(u)
    ensures ShellQuote(u) == u
  {
  }

  /** The corrected `sudo_cmd` hands `bash -lc` exactly the script it was given. */
  lemma SudoCmdDelivers(script: string)
    ensures ReadWord(SudoCmd(script)[|SudoPrefix|..]) == Some(script)
  {
    assert SudoCmd(script)[|SudoPrefix|..] == ShellQuote(script);
    ShellQuoteReadsBack(script);
  }

  /**
   * `sudo_cmd` as written is right for scripts of printable ASCII without
   * `'` or `\`: `repr` then picks single quotes and escapes nothing.
   */
  lemma SudoCmdAsWrittenPlain(script: string)
    requires forall i :: 0 <= i < |script| ==> PrintableInSingle(script[i])
    ensures ReadWord(SudoCmdAsWritten(script)[|SudoPrefix|..]) == Some(script)
  {
    ReprBodyNoEscape(script, '\'');
    assert SudoCmdAsWritten(script)[|SudoPrefix|..] == "'" + (script + "'");
    ReadLiterals(InSingle, script, "'");
    assert Read(InSingle, "'") == Some([]);
    assert script + [] == script;
  }

  /** Printable ASCII that `repr` copies between single quotes and the shell reads back as itself. */
  predicate PrintableInSingle(c: char) {
    ' ' <= c < '\U{7F}' && c != '\'' && c != '\\'
  }

  /**
   * `sudo_cmd` as written is also right for scripts that hold a `'` and
   * otherwise only printable ASCII other than `"`, `\`, `$` and the
   * backtick: `repr` then picks double quotes, and the shell expands nothing
   * between them.
   */
  lemma SudoCmdAsWrittenDouble(script: string)
    requires '\'' in script
    requires forall i :: 0 <= i < |script| ==> PrintableInDouble(script[i])
    ensures ReadWord(SudoCmdAsWritten(script)[|SudoPrefix|..]) == Some(script)
  {
    assert '"' !in script;
    ReprBodyNoEscape(script, '"');
    assert SudoCmdAsWritten(script)[|SudoPrefix|..] == "\"" + (script + "\"");
    ReadEnterDouble(script + "\"");
    ReadLiterals(InDouble, script, "\"");
    ReadLeaveDouble([]);
    assert "\"" + [] == "\"";
    assert script + [] == script;
  }

  /** Printable ASCII that stands for itself between double quotes. */
  predicate PrintableInDouble(c: char) {
    ' ' <= c < '\U{7F}' && c !in "\"\\$`"
  }

  lemma AsWrittenReads(a: string, b: string)
    requires b == "' | chpasswd"
    requires |a| >= 6 && a[5] == '\''
    requires forall i :: 0 <= i < |a| ==> PrintableInDouble(a[i])
    ensures ReadWord(SudoCmdAsWritten(a + "$1" + b)[|SudoPrefix|..]) == Some(a + b)
  {
    ReprOfScript(a, b);
    var r := SudoCmdAsWritten(a + "$1" + b);
    assert r[|SudoPrefix|..] == "\"" + a + "$1" + b + "\"";
    PositionalVanishes(a, b);
  }

  lemma ReprOfScript(a: string, b: string)
    requires |a| >= 6 && a[5] == '\''
    requires forall i :: 0 <= i < |a| ==> PrintableInDouble(a[i])
    requires forall i :: 0 <= i < |b| ==> PrintableInDouble(b[i])
    ensures PyRepr(a + "$1" + b) == "\"" + (a + "$1" + b) + "\""
  {
    var script := a + "$1" + b;
    assert script[5] == '\'';
    assert '"' !in a && '"' !in b;
    assert ReprQuote(script) == '"';
    ReprBodyAppend(a + "$1", b, '"');
    ReprBodyAppend(a, "$1", '"');
    ReprBodyNoEscape(a, '"');
    ReprBodyNoEscape("$1", '"');
    ReprBodyNoEscape(b, '"');
  }

  lemma {:induction false} ReprBodyAppend(x: string, y: string, q: char)
    ensures ReprBody(x + y, q) == ReprBody(x, q) + ReprBody(y, q)
  {
    if x == [] {
      assert x + y == y;
    } else {
      assert (x + y)[0] == x[0] && (x + y)[1..] == x[1..] + y;
      ReprBodyAppend(x[1..], y, q);
    }
  }

  lemma {:induction false} QuoteInsideNoQuote(s: string)
    requires forall i :: 0 <= i < |s| ==> s[i] != '\''
    ensures QuoteInside(s) == s
  {
    if s != [] {
      QuoteInsideNoQuote(s[1..]);
      assert s == [s[0]] + s[1..];
    }
  }

  /** Between double quotes, `$1` vanishes and the surrounding text stays. */
  lemma PositionalVanishes(a: string, b: string)
    requires forall i :: 0 <= i < |a| ==> a[i] !in "\"\\$`"
    requires forall i :: 0 <= i < |b| ==> b[i] !in "\"\\$`"
    ensures Read(Plain, "\"" + a + "$1" + b + "\"") == Some(a + b)
  {
    var tail := b + "\"";
    assert "\"" + a + "$1" + b + "\"" == "\"" + (a + ("$1" + tail));
    assert ("\"" + (a + ("$1" + tail)))[1..] == a + ("$1" + tail);
    ReadLiterals(InDouble, a, "$1" + tail);
    assert ("$1" + tail)[1..][1..] == tail;
    ReadLiterals(InDouble, b, "\"");
    assert Read(InDouble, "\"") == Some([]);
    assert a + (b + []) == a + b;
  }

  lemma {:induction false} ReprBodyNoEscape(s: string, q: char)
    requires forall i :: 0 <= i < |s| ==> s[i] != q && s[i] != '\\' && ' ' <= s[i] < '\U{7F}'
    ensures ReprBody(s, q) == s
  {
    if s != [] {
      ReprBodyNoEscape(s[1..], q);
    }
  }
}
