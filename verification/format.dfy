/**
 * The integer subset of Go's `fmt.Sprintf` and `fmt.Sscanf` that the server
 * uses: formats made of literal text and `%d` verbs. Scanning matches literal
 * text exactly, reads each `%d` with `Text.ScanInt` for the verb's destination
 * type and ignores whatever input follows the last directive.
 */
module Fmt {
  import opened Wrappers
  import opened Text

  /** One piece of a format: literal text, or a `%d` verb whose destination
      has the given Go type. */
  datatype Directive = Lit(text: string) | Verb(kind: IntKind)

  function CountVerbs(format: seq<Directive>): nat
    decreases |format|
  {
    if |format| == 0 then 0
    else (if format[0].Verb? then 1 else 0) + CountVerbs(format[1..])
  }

  /** `fmt.Sprintf` with one integer argument per verb. */
  function Sprintf(format: seq<Directive>, args: seq<int>): string
    requires |args| == CountVerbs(format)
    decreases |format|
  {
    if |format| == 0 then ""
    else match format[0]
      case Lit(t) => t + Sprintf(format[1..], args)
      case Verb(_) => IntToDecimal(args[0]) + Sprintf(format[1..], args[1..])
  }

  /** `fmt.Sscanf`: the scanned values, one per verb, or `None` for any error
      (a literal that does not match, input that ends early, a number that is
      missing or does not fit its destination). */
  function Sscanf(s: string, format: seq<Directive>): (r: Option<seq<int>>)
    ensures r.Some? ==> ArgsFit(format, r.value)
    decreases |format|
  {
    if |format| == 0 then Some([])
    else match format[0]
      case Lit(t) =>
        (match ScanLiteral(s, t)
         case None => None
         case Some(rest) => Sscanf(rest, format[1..]))
      case Verb(k) =>
        match ScanInt(s, k)
        case None => None
        case Some(x) =>
          match Sscanf(x.rest, format[1..])
          case None => None
          case Some(vs) => Some([x.value] + vs)
  }

  /** One argument per verb, each within the range of its destination. */
  predicate ArgsFit(format: seq<Directive>, args: seq<int>)
    decreases |format|
  {
    if |format| == 0 then args == []
    else match format[0]
      case Lit(_) => ArgsFit(format[1..], args)
      case Verb(k) => |args| > 0 && InRange(args[0], k) && ArgsFit(format[1..], args[1..])
  }

  /** Literal text is never empty, and a verb is either last or followed by
      literal text that does not start with a digit, so that the printed
      number ends where the format says it does. */
  predicate Separated(format: seq<Directive>) {
    (forall i :: 0 <= i < |format| && format[i].Lit? ==> |format[i].text| > 0)
    && (forall i :: 0 <= i < |format| - 1 && format[i].Verb? ==>
          format[i + 1].Lit? && !IsDigit(format[i + 1].text[0]))
  }

  lemma {:induction false} ArgsFitCount(format: seq<Directive>, args: seq<int>)
    requires ArgsFit(format, args)
    ensures |args| == CountVerbs(format)
    decreases |format|
  {
    if |format| > 0 {
      if format[0].Lit? {
        ArgsFitCount(format[1..], args);
      } else {
        ArgsFitCount(format[1..], args[1..]);
      }
    }
  }

  /** A character that is not a digit, not a minus sign and not in any literal
      never appears in the printed text. */
  lemma {:induction false} SprintfAvoids(format: seq<Directive>, args: seq<int>, c: char)
    requires |args| == CountVerbs(format)
    requires !IsDigit(c) && c != '-'
    requires forall i :: 0 <= i < |format| && format[i].Lit? ==> c !in format[i].text
    ensures c !in Sprintf(format, args)
    decreases |format|
  {
    if |format| > 0 {
      assert forall i :: 0 <= i < |format[1..]| && format[1..][i].Lit? ==> c !in format[1..][i].text by {
        forall i | 0 <= i < |format[1..]| ensures format[1..][i] == format[i + 1] { }
      }
      match format[0]
      case Lit(t) =>
        SprintfAvoids(format[1..], args, c);
      case Verb(_) =>
        SprintfAvoids(format[1..], args[1..], c);
        var ds := NatToDecimal(if args[0] < 0 then -args[0] else args[0]);
        assert forall k :: 0 <= k < |ds| ==> ds[k] != c;
    }
  }

  lemma SeparatedTail(format: seq<Directive>)
    requires |format| > 0 && Separated(format)
    ensures Separated(format[1..])
  {
    var tl := format[1..];
    forall i | 0 <= i < |tl| - 1 && tl[i].Verb?
      ensures tl[i + 1].Lit? && !IsDigit(tl[i + 1].text[0])
    {
      assert tl[i] == format[i + 1] && tl[i + 1] == format[i + 2];
    }
  }

  /** What follows a verb in the printed text cannot extend its number. */
  lemma AfterVerb(format: seq<Directive>, args: seq<int>)
    requires |format| > 0 && format[0].Verb? && Separated(format)
    requires |args| == CountVerbs(format) && |args| > 0
    ensures var rest := Sprintf(format[1..], args[1..]);
      rest == [] || !IsDigit(rest[0])
  {
    if |format| > 1 {
      assert format[1].Lit? && |format[1].text| > 0;
    }
  }

  lemma VerbStep(format: seq<Directive>, args: seq<int>)
    requires |format| > 0 && format[0].Verb? && |args| == CountVerbs(format)
    requires InRange(args[0], format[0].kind)
    requires var rest := Sprintf(format[1..], args[1..]); rest == [] || !IsDigit(rest[0])
    requires Sscanf(Sprintf(format[1..], args[1..]), format[1..]) == Some(args[1..])
    ensures Sscanf(Sprintf(format, args), format) == Some(args)
  {
    var rest := Sprintf(format[1..], args[1..]);
    assert Sprintf(format, args) == IntToDecimal(args[0]) + rest;
    ScanDecimal(args[0], format[0].kind, rest);
    assert args == [args[0]] + args[1..];
  }

  lemma LitStep(format: seq<Directive>, args: seq<int>)
    requires |format| > 0 && format[0].Lit?
    requires |args| == CountVerbs(format)
    requires Sscanf(Sprintf(format[1..], args), format[1..]) == Some(args)
    ensures Sscanf(Sprintf(format, args), format) == Some(args)
  {
    ScanLiteralOf(format[0].text, Sprintf(format[1..], args));
  }

  /** Scanning what `Sprintf` printed with the same format gives back the
      arguments, provided each fits its destination. */
  lemma {:induction false} ScanPrinted(format: seq<Directive>, args: seq<int>)
    requires Separated(format) && ArgsFit(format, args) && |args| == CountVerbs(format)
    ensures Sscanf(Sprintf(format, args), format) == Some(args)
    decreases |format|
  {
    if |format| > 0 {
      SeparatedTail(format);
      if format[0].Lit? {
        ScanPrinted(format[1..], args);
        LitStep(format, args);
      } else {
        ArgsFitCount(format[1..], args[1..]);
        ScanPrinted(format[1..], args[1..]);
        AfterVerb(format, args);
        VerbStep(format, args);
      }
    }
  }

  /** White space other than a newline in front of a verb is skipped: the
      scan reads the same values as without it. */
  lemma LeadingSpace(format: seq<Directive>, c: char, s: string)
    requires |format| > 0 && format[0].Verb?
    requires IsSpace(c) && c != '\n'
    ensures Sscanf([c] + s, format) == Sscanf(s, format)
  {
    assert ([c] + s)[1..] == s;
    assert SkipScanSpace([c] + s) == SkipScanSpace(s);
  }
}
