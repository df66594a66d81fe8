/**
 * formatWithTemplate: the note template's brace placeholders are replaced, one global
 * String.replace after another, by the visit date, the transcript, or a marker followed by
 * the transcript.
 */
module TemplateFormat {
  import opened Wrappers
  import opened Text

  /** A note template as the template table returns it. */
  datatype Template = Template(id: string, title: string, content: string)

  /** What every clinical-field placeholder becomes, in front of the transcript. */
  const ExtractedPrefix: string := "（音声入力より抽出）\n"

  /** The clinical-field placeholders, in the order they are replaced. */
  const FieldNames: seq<string> := [
    "chief_complaint", "present_illness", "blood_pressure",
    "temperature", "pulse", "respiration", "spo2",
    "physical_exam", "treatment", "notes",
    "general_condition", "vital_signs", "nursing_care",
    "meals", "excretion", "hygiene", "observation", "action"
  ]

  /** The placeholder `{name}`. */
  function Token(name: string): string
  {
    "{" + name + "}"
  }

  /**
   * The replacement string of String.prototype.replace for a pattern without capture groups:
   * `$$` is a dollar sign, `$&` the matched text, `$`` the text before the match and `$'` the
   * text after it; every other character, `$` included, stands for itself.
   */
  function Expand(rep: string, matched: string, before: string, after: string): string
    decreases |rep|
  {
    if rep == [] then []
    else if |rep| >= 2 && rep[0] == '$' && rep[1] == '$' then "$" + Expand(rep[2..], matched, before, after)
    else if |rep| >= 2 && rep[0] == '$' && rep[1] == '&' then matched + Expand(rep[2..], matched, before, after)
    else if |rep| >= 2 && rep[0] == '$' && rep[1] == '`' then before + Expand(rep[2..], matched, before, after)
    else if |rep| >= 2 && rep[0] == '$' && rep[1] == '\'' then after + Expand(rep[2..], matched, before, after)
    else [rep[0]] + Expand(rep[1..], matched, before, after)
  }

  /**
   * A global regular-expression replace of the literal `token`, scanning `s` from position `i`:
   * each leftmost match is replaced and the scan resumes after it.
   */
  function ReplaceFrom(s: string, i: nat, token: string, rep: string): string
    requires i <= |s| && token != []
    decreases |s| - i
  {
    if |s| - i < |token| then s[i..]
    else if s[i..i + |token|] == token then
      Expand(rep, token, s[..i], s[i + |token|..]) + ReplaceFrom(s, i + |token|, token, rep)
    else [s[i]] + ReplaceFrom(s, i + 1, token, rep)
  }

  /** `s.replace(/{name}/g, rep)`. */
  function ReplaceToken(s: string, name: string, rep: string): string
  {
    ReplaceFrom(s, 0, Token(name), rep)
  }

  /** The `forEach` over the field names: each one replaced in turn, in list order. */
  function ReplaceFields(s: string, names: seq<string>, rep: string): string
    decreases |names|
  {
    if names == [] then s
    else ReplaceToken(ReplaceFields(s, names[..|names| - 1], rep), names[|names| - 1], rep)
  }

  /** What formatWithTemplate returns for the selected template, the transcript and the visit date. */
  function Formatted(template: Option<Template>, transcript: string, visitDate: string): string
  {
    match template
    case None => transcript
    case Some(t) =>
      var withDate := ReplaceToken(t.content, "visit_date", visitDate);
      var withContent := ReplaceToken(withDate, "content", transcript);
      var withVoice := ReplaceToken(withContent, "voice_input", transcript);
      ReplaceFields(withVoice, FieldNames, ExtractedPrefix + transcript)
  }

  /** formatWithTemplate, statement by statement. */
  method FormatWithTemplate(template: Option<Template>, transcriptText: string, visitDate: string)
    returns (formatted: string)
    ensures template.None? ==> formatted == transcriptText
    ensures formatted == Formatted(template, transcriptText, visitDate)
  {
    if template.None? {
      return transcriptText;
    }
    formatted := template.value.content;
    formatted := ReplaceToken(formatted, "visit_date", visitDate);
    formatted := ReplaceToken(formatted, "content", transcriptText);
    formatted := ReplaceToken(formatted, "voice_input", transcriptText);
    ghost var base := formatted;
    var rep := ExtractedPrefix + transcriptText;
    for i := 0 to |FieldNames|
      invariant formatted == ReplaceFields(base, FieldNames[..i], rep)
    {
      assert FieldNames[..i + 1][..i] == FieldNames[..i];
      formatted := ReplaceToken(formatted, FieldNames[i], rep);
    }
    assert FieldNames[..|FieldNames|] == FieldNames;
  }

  // ---------------------------------------------------------------------------------------
  // Literal replacement: what the global replace does when the replacement has no `$`.

  /** Replaces every leftmost, non-overlapping occurrence of `token` in `s` by `rep`, verbatim. */
  function ReplaceLiteral(s: string, token: string, rep: string): string
    requires token != []
    decreases |s|
  {
    if |s| < |token| then s
    else if s[..|token|] == token then rep + ReplaceLiteral(s[|token|..], token, rep)
    else [s[0]] + ReplaceLiteral(s[1..], token, rep)
  }

  /** Without a `$`, the replacement string stands for itself. */
  lemma {:induction false} ExpandWithoutDollar(rep: string, matched: string, before: string, after: string)
    requires '$' !in rep
    ensures Expand(rep, matched, before, after) == rep
  {
    if rep != [] {
      assert rep[0] != '$';
      ExpandWithoutDollar(rep[1..], matched, before, after);
      assert [rep[0]] + rep[1..] == rep;
    }
  }

  /** Without a `$` in the replacement, the global replace is literal replacement. */
  lemma {:induction false} ReplaceFromIsLiteral(s: string, i: nat, token: string, rep: string)
    requires i <= |s| && token != [] && '$' !in rep
    ensures ReplaceFrom(s, i, token, rep) == ReplaceLiteral(s[i..], token, rep)
    decreases |s| - i
  {
    var x := s[i..];
    if |s| - i < |token| {
    } else if s[i..i + |token|] == token {
      var j := i + |token|;
      assert x[..|token|] == token;
      assert x[|token|..] == s[j..];
      ExpandWithoutDollar(rep, token, s[..i], s[j..]);
      ReplaceFromIsLiteral(s, j, token, rep);
      calc {
        ReplaceFrom(s, i, token, rep);
        Expand(rep, token, s[..i], s[j..]) + ReplaceFrom(s, j, token, rep);
        rep + ReplaceLiteral(x[|token|..], token, rep);
        ReplaceLiteral(x, token, rep);
      }
    } else {
      assert x[..|token|] == s[i..i + |token|];
      assert x[1..] == s[i + 1..];
      ReplaceFromIsLiteral(s, i + 1, token, rep);
      calc {
        ReplaceFrom(s, i, token, rep);
        [s[i]] + ReplaceFrom(s, i + 1, token, rep);
        [x[0]] + ReplaceLiteral(x[1..], token, rep);
        ReplaceLiteral(x, token, rep);
      }
    }
  }

  /** A dictated `$&` puts the placeholder it replaces back into the note. */
  lemma {:induction false} DollarAmpersandRestoresPlaceholder()
    ensures ReplaceToken("{content}", "content", "$&") == "{content}"
  {
    var s := "{content}";
    assert s[0..|Token("content")|] == Token("content");
    assert ReplaceFrom(s, |s|, Token("content"), "$&") == "";
    assert Expand("$&", Token("content"), "", "") == Token("content") + Expand("", Token("content"), "", "");
  }

  // ---------------------------------------------------------------------------------------
  // Templates read as plain text and placeholders: the reference meaning of the formatter.

  /** A piece of a template: plain text, or a placeholder `{name}`. */
  datatype Piece = Plain(text: string) | Slot(name: string)

  function PieceString(p: Piece): string
  {
    match p
    case Plain(x) => x
    case Slot(n) => Token(n)
  }

  /** The template text the pieces spell. */
  function Render(ps: seq<Piece>): string
    decreases |ps|
  {
    if ps == [] then "" else PieceString(ps[0]) + Render(ps[1..])
  }

  /** A placeholder name holds no brace. */
  predicate NameOk(n: string)
  {
    '{' !in n && '}' !in n
  }

  /**
   * Plain text holds no `{`: every `{` of the template opens a placeholder that the next `}`
   * closes.
   */
  predicate WellFormed(ps: seq<Piece>)
  {
    forall i :: 0 <= i < |ps| ==> match ps[i]
      case Plain(x) => '{' !in x
      case Slot(n) => NameOk(n)
  }

  /** A placeholder named in `names` becomes the plain text `rep`; any other piece stays. */
  function FillPiece(p: Piece, names: seq<string>, rep: string): Piece
  {
    if p.Slot? && p.name in names then Plain(rep) else p
  }

  /** The placeholders named in `names` become the plain text `rep`. */
  function Fill(ps: seq<Piece>, names: seq<string>, rep: string): (r: seq<Piece>)
    ensures |r| == |ps|
    ensures WellFormed(ps) && '{' !in rep ==> WellFormed(r)
    decreases |ps|
  {
    if ps == [] then []
    else
      var head := FillPiece(ps[0], names, rep);
      var tail := Fill(ps[1..], names, rep);
      assert WellFormed(ps) ==> WellFormed(ps[1..]) by {
        if WellFormed(ps) {
          forall i | 0 <= i < |ps[1..]| ensures match ps[1..][i]
            case Plain(x) => '{' !in x
            case Slot(n) => NameOk(n)
          {
            assert ps[1..][i] == ps[i + 1];
          }
        }
      }
      var r := [head] + tail;
      assert forall i :: 1 <= i < |r| ==> r[i] == tail[i - 1];
      r
  }

  /** Known names and what the formatter puts in their place. */
  predicate KnownName(n: string)
  {
    n == "visit_date" || n == "content" || n == "voice_input" || n in FieldNames
  }

  function SlotValue(n: string, transcript: string, visitDate: string): string
  {
    if n == "visit_date" then visitDate
    else if n == "content" || n == "voice_input" then transcript
    else if n in FieldNames then ExtractedPrefix + transcript
    else Token(n)
  }

  function PieceValue(p: Piece, transcript: string, visitDate: string): string
  {
    match p
    case Plain(x) => x
    case Slot(n) => SlotValue(n, transcript, visitDate)
  }

  /** The reference meaning: every known placeholder becomes its value, everything else stays. */
  function Resolve(ps: seq<Piece>, transcript: string, visitDate: string): string
    decreases |ps|
  {
    if ps == [] then ""
    else PieceValue(ps[0], transcript, visitDate) + Resolve(ps[1..], transcript, visitDate)
  }

  /** Text without `{` is copied over by literal replacement of a placeholder. */
  lemma {:induction false} ReplaceSkipsPlain(x: string, y: string, token: string, rep: string)
    requires '{' !in x && token != [] && token[0] == '{'
    ensures ReplaceLiteral(x + y, token, rep) == x + ReplaceLiteral(y, token, rep)
    decreases |x|
  {
    if x != [] {
      var s := x + y;
      assert s[0] == x[0];
      if |s| >= |token| {
        assert s[..|token|][0] != token[0];
      }
      assert s[1..] == x[1..] + y;
      ReplaceSkipsPlain(x[1..], y, token, rep);
      assert x == [x[0]] + x[1..];
    } else {
      assert x + y == y;
    }
  }

  /** A placeholder is never a prefix of a different placeholder followed by more text. */
  lemma {:induction false} OtherTokenNotPrefix(m: string, n: string, y: string)
    requires NameOk(m) && NameOk(n) && m != n
    requires |Token(m) + y| >= |Token(n)|
    ensures (Token(m) + y)[..|Token(n)|] != Token(n)
  {
    var s := Token(m) + y;
    var t := Token(n);
    if |m| < |n| {
      assert s[|m| + 1] == '}';
      assert t[|m| + 1] == n[|m|];
      assert s[..|t|][|m| + 1] != t[|m| + 1];
    } else if |m| > |n| {
      assert t[|n| + 1] == '}';
      assert s[|n| + 1] == m[|n|];
      assert s[..|t|][|n| + 1] != t[|n| + 1];
    } else {
      assert s[..|t|] == Token(m);
      assert Token(m)[1..|m| + 1] == m;
      assert t[1..|n| + 1] == n;
    }
  }

  /** Literal replacement of `{n}` leaves a different well-formed placeholder alone. */
  lemma {:induction false} ReplaceSkipsOtherSlot(m: string, n: string, y: string, rep: string)
    requires NameOk(m) && NameOk(n) && m != n
    ensures ReplaceLiteral(Token(m) + y, Token(n), rep) == Token(m) + ReplaceLiteral(y, Token(n), rep)
  {
    var s := Token(m) + y;
    var t := Token(n);
    if |s| < |t| {
      assert ReplaceLiteral(y, t, rep) == y;
    } else {
      OtherTokenNotPrefix(m, n, y);
      assert s[1..] == (m + "}") + y;
      ReplaceSkipsPlain(m + "}", y, t, rep);
      calc {
        ReplaceLiteral(s, t, rep);
        [s[0]] + ReplaceLiteral(s[1..], t, rep);
        [s[0]] + ((m + "}") + ReplaceLiteral(y, t, rep));
        { assert Token(m) == [s[0]] + (m + "}"); }
        Token(m) + ReplaceLiteral(y, t, rep);
      }
    }
  }

  /** Literal replacement of `{n}` replaces that placeholder. */
  lemma {:induction false} ReplaceHitsSlot(n: string, y: string, rep: string)
    ensures ReplaceLiteral(Token(n) + y, Token(n), rep) == rep + ReplaceLiteral(y, Token(n), rep)
  {
    var s := Token(n) + y;
    assert s[..|Token(n)|] == Token(n);
    assert s[|Token(n)|..] == y;
  }

  /** Replacing `{n}` in a well-formed template turns exactly the `{n}` placeholders into `rep`. */
  lemma {:induction false} ReplaceLiteralPieces(ps: seq<Piece>, n: string, rep: string)
    requires WellFormed(ps) && NameOk(n)
    ensures ReplaceLiteral(Render(ps), Token(n), rep) == Render(Fill(ps, [n], rep))
    decreases |ps|
  {
    if ps == [] {
      assert Render(ps) == "";
    } else {
      assert WellFormed(ps[1..]) by {
        forall i | 0 <= i < |ps[1..]| ensures match ps[1..][i]
          case Plain(x) => '{' !in x
          case Slot(n) => NameOk(n)
        {
          assert ps[1..][i] == ps[i + 1];
        }
      }
      ReplaceLiteralPieces(ps[1..], n, rep);
      var y := Render(ps[1..]);
      var f := Fill(ps, [n], rep);
      assert f[1..] == Fill(ps[1..], [n], rep);
      match ps[0]
      case Plain(x) =>
        assert '{' !in x;
        ReplaceSkipsPlain(x, y, Token(n), rep);
      case Slot(m) =>
        if m == n {
          ReplaceHitsSlot(n, y, rep);
        } else {
          ReplaceSkipsOtherSlot(m, n, y, rep);
        }
    }
  }

  /** The global replace of `{n}`, for a replacement without `$` and `{`, on pieces. */
  lemma {:induction false} ReplaceTokenPieces(ps: seq<Piece>, n: string, rep: string)
    requires WellFormed(ps) && NameOk(n) && '{' !in rep && '$' !in rep
    ensures ReplaceToken(Render(ps), n, rep) == Render(Fill(ps, [n], rep))
    ensures WellFormed(Fill(ps, [n], rep))
  {
    ReplaceFromIsLiteral(Render(ps), 0, Token(n), rep);
    assert Render(ps)[0..] == Render(ps);
    ReplaceLiteralPieces(ps, n, rep);
  }

  /** Filling the names `a` and then `n`, with one replacement, is filling `a + [n]`. */
  lemma {:induction false} FillThenFill(ps: seq<Piece>, a: seq<string>, n: string, rep: string)
    ensures Fill(Fill(ps, a, rep), [n], rep) == Fill(ps, a + [n], rep)
    decreases |ps|
  {
    if ps != [] {
      FillThenFill(ps[1..], a, n, rep);
      assert Fill(ps, a, rep)[1..] == Fill(ps[1..], a, rep);
    }
  }

  /** The field loop, on pieces. */
  lemma {:induction false} ReplaceFieldsPieces(ps: seq<Piece>, names: seq<string>, rep: string)
    requires WellFormed(ps) && '{' !in rep && '$' !in rep
    requires forall i :: 0 <= i < |names| ==> NameOk(names[i])
    ensures ReplaceFields(Render(ps), names, rep) == Render(Fill(ps, names, rep))
    decreases |names|
  {
    if names == [] {
      assert Fill(ps, names, rep) == ps by { FillNothing(ps, rep); }
    } else {
      var init := names[..|names| - 1];
      var last := names[|names| - 1];
      ReplaceFieldsPieces(ps, init, rep);
      ReplaceTokenPieces(Fill(ps, init, rep), last, rep);
      FillThenFill(ps, init, last, rep);
      assert init + [last] == names;
    }
  }

  lemma {:induction false} FillNothing(ps: seq<Piece>, rep: string)
    ensures Fill(ps, [], rep) == ps
    decreases |ps|
  {
    if ps != [] {
      FillNothing(ps[1..], rep);
      assert ps == [ps[0]] + ps[1..];
    }
  }

  /** The four replacement steps give one piece its reference value. */
  lemma {:induction false} FillStepsPiece(p: Piece, transcript: string, visitDate: string)
    ensures PieceString(FillPiece(FillPiece(FillPiece(FillPiece(p, ["visit_date"], visitDate), ["content"], transcript),
      ["voice_input"], transcript), FieldNames, ExtractedPrefix + transcript))
      == PieceValue(p, transcript, visitDate)
  {
  }

  /** The four fill steps of the formatter, taken together, resolve every known placeholder. */
  lemma {:induction false} FillStepsResolve(ps: seq<Piece>, transcript: string, visitDate: string)
    ensures Render(Fill(Fill(Fill(Fill(ps, ["visit_date"], visitDate), ["content"], transcript),
      ["voice_input"], transcript), FieldNames, ExtractedPrefix + transcript))
      == Resolve(ps, transcript, visitDate)
    decreases |ps|
  {
    if ps != [] {
      FillStepsResolve(ps[1..], transcript, visitDate);
      var p1 := Fill(ps, ["visit_date"], visitDate);
      var p2 := Fill(p1, ["content"], transcript);
      var p3 := Fill(p2, ["voice_input"], transcript);
      var p4 := Fill(p3, FieldNames, ExtractedPrefix + transcript);
      assert p1[1..] == Fill(ps[1..], ["visit_date"], visitDate);
      assert p2[1..] == Fill(p1[1..], ["content"], transcript);
      assert p3[1..] == Fill(p2[1..], ["voice_input"], transcript);
      assert p4[1..] == Fill(p3[1..], FieldNames, ExtractedPrefix + transcript);
      FillStepsPiece(ps[0], transcript, visitDate);
    }
  }

  lemma {:induction false} FieldNamesOk()
    ensures forall i :: 0 <= i < |FieldNames| ==> NameOk(FieldNames[i])
  {
  }

  /**
   * On a well-formed template, with a visit date and a transcript free of `{` and `$`, the
   * formatter replaces every known placeholder by its value and leaves the rest of the text as
   * it is.
   */
  lemma {:induction false} FormattedResolvesPlaceholders(t: Template, ps: seq<Piece>, transcript: string, visitDate: string)
    requires Render(ps) == t.content && WellFormed(ps)
    requires '{' !in transcript && '$' !in transcript && '{' !in visitDate && '$' !in visitDate
    ensures Formatted(Some(t), transcript, visitDate) == Resolve(ps, transcript, visitDate)
  {
    var rep := ExtractedPrefix + transcript;
    assert '{' !in ExtractedPrefix && '$' !in ExtractedPrefix;
    var p1 := Fill(ps, ["visit_date"], visitDate);
    ReplaceTokenPieces(ps, "visit_date", visitDate);
    var p2 := Fill(p1, ["content"], transcript);
    ReplaceTokenPieces(p1, "content", transcript);
    var p3 := Fill(p2, ["voice_input"], transcript);
    ReplaceTokenPieces(p2, "voice_input", transcript);
    FieldNamesOk();
    ReplaceFieldsPieces(p3, FieldNames, rep);
    FillStepsResolve(ps, transcript, visitDate);
  }

  /** Text without `{` in front of a string cannot complete a placeholder the string lacks. */
  lemma {:induction false} PlainAddsNoToken(x: string, y: string, token: string)
    requires '{' !in x && token != [] && token[0] == '{' && !Contains(y, token)
    ensures !Contains(x + y, token)
    decreases |x|
  {
    if x != [] {
      var s := x + y;
      if |token| <= |s| {
        assert s[..|token|][0] == x[0];
      }
      assert s[1..] == x[1..] + y;
      PlainAddsNoToken(x[1..], y, token);
    } else {
      assert x + y == y;
    }
  }

  /** A different placeholder in front of a string cannot complete a placeholder the string lacks. */
  lemma {:induction false} OtherSlotAddsNoToken(u: string, k: string, y: string)
    requires NameOk(u) && NameOk(k) && u != k && !Contains(y, Token(k))
    ensures !Contains(Token(u) + y, Token(k))
  {
    var s := Token(u) + y;
    if |Token(k)| <= |s| {
      OtherTokenNotPrefix(u, k, y);
    }
    assert s[1..] == (u + "}") + y;
    PlainAddsNoToken(u + "}", y, Token(k));
  }

  lemma {:induction false} KnownNameOk(k: string)
    requires KnownName(k)
    ensures NameOk(k)
  {
    FieldNamesOk();
  }

  /** No known placeholder occurs in the resolved text. */
  lemma {:induction false} ResolvedHasNoKnownToken(ps: seq<Piece>, transcript: string, visitDate: string, k: string)
    requires WellFormed(ps) && '{' !in transcript && '{' !in visitDate && KnownName(k)
    ensures !Contains(Resolve(ps, transcript, visitDate), Token(k))
    decreases |ps|
  {
    KnownNameOk(k);
    if ps != [] {
      assert WellFormed(ps[1..]) by {
        forall i | 0 <= i < |ps[1..]| ensures match ps[1..][i]
          case Plain(x) => '{' !in x
          case Slot(n) => NameOk(n)
        {
          assert ps[1..][i] == ps[i + 1];
        }
      }
      ResolvedHasNoKnownToken(ps[1..], transcript, visitDate, k);
      var y := Resolve(ps[1..], transcript, visitDate);
      assert '{' !in ExtractedPrefix;
      match ps[0]
      case Plain(x) =>
        PlainAddsNoToken(x, y, Token(k));
      case Slot(n) =>
        if KnownName(n) {
          PlainAddsNoToken(SlotValue(n, transcript, visitDate), y, Token(k));
        } else {
          OtherSlotAddsNoToken(n, k, y);
        }
    } else {
      assert !Contains("", Token(k));
    }
  }

  /**
   * After formatting a well-formed template with a visit date and a transcript free of `{` and
   * `$`, no `{visit_date}`, `{content}`, `{voice_input}` or field placeholder is left.
   */
  lemma {:induction false} FormattedLeavesNoKnownPlaceholder(t: Template, ps: seq<Piece>, transcript: string, visitDate: string, k: string)
    requires Render(ps) == t.content && WellFormed(ps) && KnownName(k)
    requires '{' !in transcript && '$' !in transcript && '{' !in visitDate && '$' !in visitDate
    ensures !Contains(Formatted(Some(t), transcript, visitDate), Token(k))
  {
    FormattedResolvesPlaceholders(t, ps, transcript, visitDate);
    ResolvedHasNoKnownToken(ps, transcript, visitDate, k);
  }

  lemma {:induction false} VisitNoteResolve(transcript: string, visitDate: string)
    ensures Resolve([Slot("visit_date"), Plain("の記録: "), Slot("content")], transcript, visitDate)
      == visitDate + "の記録: " + transcript
  {
    var ps := [Slot("visit_date"), Plain("の記録: "), Slot("content")];
    assert Resolve(ps[2..], transcript, visitDate) == transcript;
    assert Resolve(ps[1..], transcript, visitDate) == "の記録: " + transcript;
  }

  /** A visit-note template with a date and a content placeholder. */
  lemma {:induction false} VisitNoteExample(t: Template, transcript: string, visitDate: string)
    requires t.content == Token("visit_date") + "の記録: " + Token("content")
    requires '{' !in transcript && '$' !in transcript && '{' !in visitDate && '$' !in visitDate
    ensures Formatted(Some(t), transcript, visitDate) == visitDate + "の記録: " + transcript
  {
    var ps := [Slot("visit_date"), Plain("の記録: "), Slot("content")];
    assert Render(ps) == t.content by {
      assert Render(ps[2..]) == Token("content");
      assert Render(ps[1..]) == "の記録: " + Token("content");
    }
    assert WellFormed(ps) by {
      assert NameOk("visit_date") && NameOk("content") && '{' !in "の記録: ";
    }
    FormattedResolvesPlaceholders(t, ps, transcript, visitDate);
    VisitNoteResolve(transcript, visitDate);
  }

  lemma {:induction false} ChiefComplaintResolve(transcript: string, visitDate: string)
    ensures Resolve([Slot("chief_complaint")], transcript, visitDate) == ExtractedPrefix + transcript
  {
    var ps := [Slot("chief_complaint")];
    assert FieldNames[0] == "chief_complaint";
    assert SlotValue("chief_complaint", transcript, visitDate) == ExtractedPrefix + transcript;
    assert Resolve(ps[1..], transcript, visitDate) == "";
  }

  /** A clinical-field placeholder becomes the extraction marker followed by the transcript. */
  lemma {:induction false} FieldPlaceholderExample(t: Template, transcript: string, visitDate: string)
    requires t.content == Token("chief_complaint")
    requires '{' !in transcript && '$' !in transcript && '{' !in visitDate && '$' !in visitDate
    ensures Formatted(Some(t), transcript, visitDate) == ExtractedPrefix + transcript
  {
    var ps := [Slot("chief_complaint")];
    assert Render(ps) == t.content by {
      assert Render(ps[1..]) == "";
    }
    assert WellFormed(ps) by {
      assert NameOk("chief_complaint");
    }
    FormattedResolvesPlaceholders(t, ps, transcript, visitDate);
    ChiefComplaintResolve(transcript, visitDate);
  }
}
