/**
 * Composition of the one line a log call writes to every client:
 * the metadata text has every newline, together with the whitespace run
 * that follows it, collapsed into one space (a global regular-expression
 * replacement of a newline followed by `\s` repeated), and the line is
 * `level ": " msg ". " metaString "\n"`.
 *
 * The metadata text itself comes from a reflection-based pretty-printer;
 * here it is an input, `None` when the metadata is absent or falsy.
 */
module LineFormat {
  import opened Wrappers

  /** The characters matched by `\s` in an ECMAScript regular expression:
      WhiteSpace (TAB, VT, FF, SP, NBSP, ZWNBSP and the Zs category)
      and LineTerminator (LF, CR, LS, PS). */
  predicate IsJsSpace(c: char) {
    c == '\t' || c == '\n' || c == '\U{000B}' || c == '\U{000C}' || c == '\r' ||
    c == ' ' || c == '\U{00A0}' || c == '\U{1680}' ||
    ('\U{2000}' <= c <= '\U{200A}') ||
    c == '\U{2028}' || c == '\U{2029}' || c == '\U{202F}' || c == '\U{205F}' ||
    c == '\U{3000}' || c == '\U{FEFF}'
  }

  /** The rest of `s` after its leading `\s*` run (a greedy match). */
  function SkipSpaces(s: string): (rest: string)
    ensures |rest| <= |s| && rest == s[|s| - |rest|..]
    ensures rest == [] || !IsJsSpace(rest[0])
    ensures forall i :: 0 <= i < |s| - |rest| ==> IsJsSpace(s[i])
  {
    if s != [] && IsJsSpace(s[0]) then SkipSpaces(s[1..]) else s
  }

  /** The global replacement of the pattern newline-then-`\s`-run by `' '`: scanning left to right, each newline and
      the whitespace run after it (further newlines included) become one space;
      every other character is kept. */
  function Collapse(s: string): (r: string)
    ensures '\n' !in r
    ensures |r| <= |s|
    decreases |s|
  {
    if s == [] then []
    else if s[0] == '\n' then [' '] + Collapse(SkipSpaces(s[1..]))
    else [s[0]] + Collapse(s[1..])
  }

  /** A string without newlines has nothing for the pattern to match. */
  lemma {:induction false} CollapseKeepsPlain(s: string)
    requires '\n' !in s
    ensures Collapse(s) == s
    decreases |s|
  {
    if s != [] {
      assert s[0] != '\n';
      CollapseKeepsPlain(s[1..]);
      assert s == [s[0]] + s[1..];
    }
  }

  /** Collapsing twice is collapsing once. */
  lemma CollapseIdempotent(s: string)
    ensures Collapse(Collapse(s)) == Collapse(s)
  {
    CollapseKeepsPlain(Collapse(s));
  }

  /** A prefix without newlines is copied through unchanged. */
  lemma {:induction false} CollapsePlainPrefix(a: string, b: string)
    requires '\n' !in a
    ensures Collapse(a + b) == a + Collapse(b)
    decreases |a|
  {
    if a == [] {
      assert a + b == b;
    } else {
      assert a[0] != '\n';
      assert (a + b)[0] == a[0] && (a + b)[1..] == a[1..] + b;
      CollapsePlainPrefix(a[1..], b);
      assert a == [a[0]] + a[1..];
    }
  }

  lemma {:induction false} SkipSpacesRun(w: string, b: string)
    requires forall i :: 0 <= i < |w| ==> IsJsSpace(w[i])
    requires b == [] || !IsJsSpace(b[0])
    ensures SkipSpaces(w + b) == b
    decreases |w|
  {
    if w != [] {
      assert (w + b)[0] == w[0] && (w + b)[1..] == w[1..] + b;
      SkipSpacesRun(w[1..], b);
    } else {
      assert w + b == b;
    }
  }

  /** A newline followed by a maximal whitespace run `w` is replaced by
      exactly one space, and matching resumes right after the run. */
  lemma CollapseNewlineRun(w: string, b: string)
    requires forall i :: 0 <= i < |w| ==> IsJsSpace(w[i])
    requires b == [] || !IsJsSpace(b[0])
    ensures Collapse(['\n'] + w + b) == [' '] + Collapse(b)
  {
    var t := w + b;
    SkipSpacesRun(w, b);
    assert ['\n'] + w + b == ['\n'] + t;
    var s := ['\n'] + t;
    assert s[0] == '\n' && s[1..] == t;
  }

  /** The metadata segment of the line: empty when the metadata is absent
      or falsy, otherwise its rendering with the newlines collapsed. */
  function MetaString(rendered: Option<string>): (m: string)
    ensures '\n' !in m
    ensures rendered.None? ==> m == []
  {
    match rendered
    case None => []
    case Some(text) => Collapse(text)
  }

  /** The line written to every client for one log call. It starts with the
      level and `": "`, ends with a newline, and when neither the level nor
      the message holds a newline that final newline is its only one. */
  function ComposeLine(level: string, msg: string, rendered: Option<string>): (line: string)
    ensures |line| > |level| + 2 && line[..|level| + 2] == level + ": "
    ensures line[|line| - 1] == '\n'
    ensures '\n' !in level && '\n' !in msg ==> '\n' !in line[..|line| - 1]
  {
    var body := level + ": " + msg + ". " + MetaString(rendered);
    assert (body + "\n")[..|body|] == body;
    body + "\n"
  }

  /** The line splits back into its five segments, in this order. */
  lemma ComposeLineSegments(level: string, msg: string, rendered: Option<string>)
    ensures var line := ComposeLine(level, msg, rendered);
            var m := MetaString(rendered);
            && |line| == |level| + |msg| + |m| + 5
            && line[..|level|] == level
            && line[|level|..|level| + 2] == ": "
            && line[|level| + 2..|level| + 2 + |msg|] == msg
            && line[|level| + 2 + |msg|..|level| + 4 + |msg|] == ". "
            && line[|level| + 4 + |msg|..|line| - 1] == m
            && line[|line| - 1] == '\n'
  {
  }

  /** A newline inside the message is not collapsed: only the metadata is. */
  lemma MessageNewlineKept(level: string, msg: string, rendered: Option<string>, k: nat)
    requires k < |msg| && msg[k] == '\n'
    ensures ComposeLine(level, msg, rendered)[|level| + 2 + k] == '\n'
  {
  }

  /** Metadata text without newlines appears verbatim in the line. */
  lemma ComposeLinePlainMeta(level: string, msg: string, text: string)
    requires '\n' !in text
    ensures ComposeLine(level, msg, Some(text)) == level + ": " + msg + ". " + text + "\n"
  {
    CollapseKeepsPlain(text);
  }

  /** The spelled-out lines of the logging test, as concatenations. Kept
      apart, with the metadata text as a parameter fixed by the precondition,
      so that the lemmas about `ComposeLine` never unfold a long literal. */
  lemma TestLineText(msg: string, text: string)
    requires text == "{ a: 123 }"
    ensures msg == "message" ==> "debug" + ": " + msg + ". " + text + "\n" == "debug: message. { a: 123 }\n"
    ensures msg == "message 2" ==> "debug" + ": " + msg + ". " + text + "\n" == "debug: message 2. { a: 123 }\n"
  {
  }

  /** The line of the logging test: metadata `{a: 123}` renders as `{ a: 123 }`. */
  lemma ComposeLineExample(text: string)
    requires text == "{ a: 123 }"
    ensures ComposeLine("debug", "message", Some(text)) == "debug: message. { a: 123 }\n"
  {
    assert forall i :: 0 <= i < |text| ==> text[i] != '\n';
    ComposeLinePlainMeta("debug", "message", text);
    TestLineText("message", text);
  }

  /** The second line of the logging test. */
  lemma ComposeLineSecond(msg: string, text: string)
    requires msg == "message 2" && text == "{ a: 123 }"
    ensures ComposeLine("debug", msg, Some(text)) == "debug: message 2. { a: 123 }\n"
  {
    assert forall i :: 0 <= i < |text| ==> text[i] != '\n';
    ComposeLinePlainMeta("debug", msg, text);
    TestLineText(msg, text);
  }
}
