/**
 * Data nodes (NumberNode.cs, BooleanNode.cs, StringNode.cs, DataType.cs):
 * the values an EggScript expression evaluates to, their operators, their
 * printed forms and their equality.
 *
 * Numbers are exact reals rather than IEEE doubles.
 */
module Values {
  import opened Errors
  import Tokenizer

  /** The data type of a value (DataType.cs). */
  datatype DataType = String | Number | Boolean

  /** A data node holds one immutable value; every operator builds a new node. */
  datatype Value =
    | StringNode(text: string)
    | NumberNode(number: real)
    | BooleanNode(truth: bool)

  /** The `Type` of a node: fixed by the kind of node, never by its contents. */
  function TypeOf(v: Value): (t: DataType)
    ensures t == DataType.String <==> v.StringNode?
    ensures t == DataType.Number <==> v.NumberNode?
    ensures t == DataType.Boolean <==> v.BooleanNode?
  {
    match v
    case StringNode(_) => DataType.String
    case NumberNode(_) => DataType.Number
    case BooleanNode(_) => DataType.Boolean
  }

  /** The name the runtime gives a data type in messages. */
  function TypeName(t: DataType): string {
    match t
    case String => "String"
    case Number => "Number"
    case Boolean => "Boolean"
  }

  // ---------------------------------------------------------------------------
  // NumberNode operators
  // ---------------------------------------------------------------------------

  function Add(l: real, r: real): Value { NumberNode(l + r) }
  function Subtract(l: real, r: real): Value { NumberNode(l - r) }
  function Multiply(l: real, r: real): Value { NumberNode(l * r) }

  /** Division of exact numbers; the source's double division by zero gives
      an infinity or NaN instead. */
  function Divide(l: real, r: real): Value
    requires r != 0.0
  {
    NumberNode(l / r)
  }

  function Greater(l: real, r: real): Value { BooleanNode(l > r) }
  function Less(l: real, r: real): Value { BooleanNode(l < r) }
  function GreaterOrEqual(l: real, r: real): Value { BooleanNode(l >= r) }
  function LessOrEqual(l: real, r: real): Value { BooleanNode(l <= r) }

  /** Unary plus returns the very node it is given. */
  function Identity(v: Value): Value
    requires v.NumberNode?
  {
    v
  }

  function Negate(v: Value): Value
    requires v.NumberNode?
  {
    NumberNode(-v.number)
  }

  /** The arithmetic operators give numbers and undo one another. */
  lemma ArithmeticLaws(a: real, b: real)
    ensures Add(a, b).NumberNode? && Subtract(a, b).NumberNode? && Multiply(a, b).NumberNode?
    ensures Subtract(Add(a, b).number, b) == NumberNode(a)
    ensures b != 0.0 ==> Divide(Multiply(a, b).number, b) == NumberNode(a)
    ensures Add(a, b) == Add(b, a) && Multiply(a, b) == Multiply(b, a)
  {
  }

  /** The comparisons give booleans: `>=` is `>` or equal, `<` is `>` with
      the operands swapped, and exactly one of `<`, `>=` holds. */
  lemma ComparisonLaws(a: real, b: real)
    ensures GreaterOrEqual(a, b).truth <==> Greater(a, b).truth || a == b
    ensures LessOrEqual(a, b).truth <==> Less(a, b).truth || a == b
    ensures Less(a, b) == Greater(b, a) && LessOrEqual(a, b) == GreaterOrEqual(b, a)
    ensures Less(a, b).truth != GreaterOrEqual(a, b).truth
  {
  }

  /** Negating twice gives back the original node, and unary plus changes nothing. */
  lemma NegateTwice(v: Value)
    requires v.NumberNode?
    ensures Negate(Negate(v)) == v && Identity(v) == v
  {
  }

  // ---------------------------------------------------------------------------
  // BooleanNode and StringNode operators
  // ---------------------------------------------------------------------------

  function And(l: bool, r: bool): Value { BooleanNode(l && r) }
  function Or(l: bool, r: bool): Value { BooleanNode(l || r) }

  function Not(v: Value): Value
    requires v.BooleanNode?
  {
    BooleanNode(!v.truth)
  }

  /** `!!b` is `b`, and `&`/`|` obey De Morgan's laws through `!`. */
  lemma BooleanLaws(a: bool, b: bool)
    ensures Not(Not(BooleanNode(a))) == BooleanNode(a)
    ensures Not(And(a, b)) == Or(!a, !b) && Not(Or(a, b)) == And(!a, !b)
  {
  }

  /** String `+`: the left text followed by the right text. */
  function Concat(l: string, r: string): Value { StringNode(l + r) }

  /** Concatenation keeps both texts in order: its length is the sum of the
      lengths, each operand is found where it belongs, and it is associative. */
  lemma ConcatLaws(a: string, b: string, c: string)
    ensures |Concat(a, b).text| == |a| + |b|
    ensures Concat(a, b).text[..|a|] == a && Concat(a, b).text[|a|..] == b
    ensures Concat(Concat(a, b).text, c) == Concat(a, Concat(b, c).text)
  {
    assert (a + b) + c == a + (b + c);
  }

  // ---------------------------------------------------------------------------
  // Printed forms and parsing from text
  // ---------------------------------------------------------------------------

  /** `StringValue`: a string prints as itself and a boolean as lower-case
      `true` or `false`.  The printed form of a number is the runtime's double
      formatting, which is not part of this model. */
  function StringValue(v: Value): Option<string> {
    match v
    case StringNode(s) => Some(s)
    case BooleanNode(b) => Some(if b then "true" else "false")
    case NumberNode(_) => None
  }

  function LowerChar(c: char): char {
    if 'A' <= c <= 'Z' then (c as int + 32) as char else c
  }

  function Lower(s: string): (r: string)
    ensures |r| == |s| && forall k :: 0 <= k < |s| ==> r[k] == LowerChar(s[k])
  {
    seq(|s|, k requires 0 <= k < |s| => LowerChar(s[k]))
  }

  /** What the runtime's boolean parser trims: white space and the null character. */
  predicate IsTrimmed(c: char) {
    Tokenizer.IsSpace(c) || c == '\0'
  }

  function TrimStart(s: string): (r: string)
    ensures |r| <= |s| && r == s[|s| - |r|..]
    ensures r == [] || !IsTrimmed(r[0])
  {
    if s != [] && IsTrimmed(s[0]) then TrimStart(s[1..]) else s
  }

  function TrimEnd(s: string): (r: string)
    ensures |r| <= |s| && r == s[..|r|]
    ensures r == [] || !IsTrimmed(r[|r| - 1])
  {
    if s != [] && IsTrimmed(s[|s| - 1]) then TrimEnd(s[..|s| - 1]) else s
  }

  function Trim(s: string): string {
    TrimEnd(TrimStart(s))
  }

  /** `bool.Parse`: "true" or "false" in any letter case, with surrounding
      white space ignored; anything else is a format error. */
  function ParseBool(s: string): Result<bool> {
    var t := Lower(Trim(s));
    if t == "true" then Ok(true)
    else if t == "false" then Ok(false)
    else Err(SystemError("String '" + s + "' was not recognized as a valid Boolean."))
  }

  /** The BooleanNode constructor from text. */
  function BooleanFromText(s: string): Result<Value> {
    match ParseBool(s)
    case Ok(b) => Ok(BooleanNode(b))
    case Err(e) => Err(e)
  }

  /** Round trip: a boolean node rebuilt from its printed form is the same node. */
  lemma BooleanRoundTrip(v: Value)
    requires v.BooleanNode?
    ensures StringValue(v).Some? && BooleanFromText(StringValue(v).value) == Ok(v)
  {
    var s := StringValue(v).value;
    assert s[0] in "tf" && s[|s| - 1] == 'e';
    NormalisedText(s);
  }

  /** A text with nothing to trim at either end and no upper-case letter is
      what the boolean parser compares. */
  lemma NormalisedText(s: string)
    requires s != [] && !IsTrimmed(s[0]) && !IsTrimmed(s[|s| - 1])
    requires forall k :: 0 <= k < |s| ==> !('A' <= s[k] <= 'Z')
    ensures Lower(Trim(s)) == s
  {
    assert TrimStart(s) == s;
    assert TrimEnd(s) == s;
    assert Lower(s) == s;
  }

  /** The value of a run of decimal digits. */
  function DigitsValue(t: string): (n: nat)
    requires Tokenizer.AllDigits(t)
    decreases |t|
  {
    if t == [] then 0
    else
      assert Tokenizer.AllDigits(t[..|t| - 1]);
      10 * DigitsValue(t[..|t| - 1]) + (t[|t| - 1] as int - '0' as int)
  }

  function Power10(k: nat): (p: nat)
    ensures p >= 1
  {
    if k == 0 then 1 else 10 * Power10(k - 1)
  }

  /** The value of a decimal text with whole part w and k digits f after the dot. */
  function DecimalValue(w: nat, f: nat, k: nat): real {
    w as real + f as real / Power10(k) as real
  }

  /** The NumberNode constructor from text.  The runtime's `double.Parse` is
      modelled on the text the tokenizer gives number tokens: digits, or
      digits, a dot and digits. */
  function ParseNumber(t: string): Result<real> {
    var d := Tokenizer.Span(t, 0, Tokenizer.IsDigit);
    Tokenizer.SpanMaximal(t, 0, Tokenizer.IsDigit);
    if 0 < d == |t| then Ok(DigitsValue(t) as real)
    else if d + 1 < |t| && t[d] == '.' && Tokenizer.AllDigits(t[d + 1..]) then
      assert Tokenizer.AllDigits(t[..d]);
      Ok(DecimalValue(DigitsValue(t[..d]), DigitsValue(t[d + 1..]), |t| - d - 1))
    else Err(SystemError("The input string '" + t + "' was not in a correct format."))
  }

  /** Exactly the texts of number tokens parse. */
  lemma ParseNumberAccepts(t: string)
    ensures ParseNumber(t).Ok? <==> Tokenizer.IsNumberText(t)
  {
    Tokenizer.SpanMaximal(t, 0, Tokenizer.IsDigit);
    var d := Tokenizer.Span(t, 0, Tokenizer.IsDigit);
    if 0 < d == |t| {
      assert Tokenizer.AllDigits(t);
    } else if d + 1 < |t| && t[d] == '.' && Tokenizer.AllDigits(t[d + 1..]) {
      assert t[..d] == t[..|t|][..d];
      assert Tokenizer.AllDigits(t[..d]);
    } else {
      assert !Tokenizer.AllDigits(t) || t == [] by {
        assert d < |t| ==> !Tokenizer.IsDigit(t[d]);
      }
      forall p | 0 <= p < |t| - 1 && t[p] == '.' && Tokenizer.AllDigits(t[..p])
        ensures !Tokenizer.AllDigits(t[p + 1..])
      {
        assert t[..|t|][..p] == t[..p];
        Tokenizer.DotAfterDigits(t, |t|, p);
      }
    }
  }

  function DigitChar(d: nat): char
    requires d < 10
  {
    ('0' as int + d) as char
  }

  /** The decimal text of a whole number, without leading zeros. */
  function NatText(n: nat): (t: string)
    ensures |t| > 0 && Tokenizer.AllDigits(t)
    decreases n
  {
    if n < 10 then [DigitChar(n)] else NatText(n / 10) + [DigitChar(n % 10)]
  }

  /** Reading back the decimal text of a whole number gives that number. */
  lemma {:induction false} DigitsOfNatText(n: nat)
    ensures DigitsValue(NatText(n)) == n
    decreases n
  {
    if n >= 10 {
      DigitsOfNatText(n / 10);
      assert NatText(n)[..|NatText(n)| - 1] == NatText(n / 10);
    }
  }

  /** Round trip: a whole number printed in decimal parses back to itself. */
  lemma ParseNatText(n: nat)
    ensures ParseNumber(NatText(n)) == Ok(n as real)
  {
    DigitsOfNatText(n);
    Tokenizer.SpanEnds(NatText(n), 0, Tokenizer.IsDigit, |NatText(n)|);
  }

  /** A text of digits, a dot and at least one digit is a number text, and
      its value is the whole part plus the digits after the dot scaled down
      by one power of ten per digit. */
  lemma DecimalText(whole: string, fraction: string)
    requires Tokenizer.AllDigits(whole) && Tokenizer.AllDigits(fraction) && |fraction| > 0
    ensures Tokenizer.IsNumberText(whole + "." + fraction)
    ensures ParseNumber(whole + "." + fraction) == Ok(DecimalValue(DigitsValue(whole), DigitsValue(fraction), |fraction|))
  {
    var t := whole + "." + fraction;
    DecimalParts(whole, fraction);
    assert Tokenizer.AllDigits(t[..|whole|]) && Tokenizer.AllDigits(t[|whole| + 1..]);
    ParseDotted(t, |whole|);
  }

  /** ParseNumber on a text whose leading digits stop at a dot followed by digits. */
  lemma ParseDotted(t: string, d: nat)
    requires Tokenizer.Span(t, 0, Tokenizer.IsDigit) == d && d + 1 < |t| && t[d] == '.'
    requires Tokenizer.AllDigits(t[..d]) && Tokenizer.AllDigits(t[d + 1..])
    ensures ParseNumber(t) == Ok(DecimalValue(DigitsValue(t[..d]), DigitsValue(t[d + 1..]), |t| - d - 1))
  {
  }

  /** Where a decimal text splits: its leading digits stop at the dot. */
  lemma DecimalParts(whole: string, fraction: string)
    requires Tokenizer.AllDigits(whole)
    ensures var t := whole + "." + fraction;
      t[|whole|] == '.' && t[..|whole|] == whole && t[|whole| + 1..] == fraction &&
      Tokenizer.Span(t, 0, Tokenizer.IsDigit) == |whole|
  {
    var t := whole + "." + fraction;
    assert forall k :: 0 <= k < |whole| ==> t[k] == whole[k];
    Tokenizer.SpanEnds(t, 0, Tokenizer.IsDigit, |whole|);
    assert t[|whole| + 1..] == fraction;
  }

  /** The number text `2.5` parses to two and a half. */
  lemma FractionExample()
    ensures ParseNumber("2.5") == Ok(2.5)
  {
    DecimalText("2", "5");
    assert "2" + "." + "5" == "2.5";
    assert DigitsValue("2") == 2 && DigitsValue("5") == 5;
    assert Power10(1) == 10;
    assert DecimalValue(2, 5, 1) == 2.5;
  }

  /** A number text may start at the dot: `.25` parses to a quarter. */
  lemma LeadingDotExample()
    ensures ParseNumber(".25") == Ok(0.25)
  {
    DecimalText("", "25");
    assert "" + "." + "25" == ".25";
    assert DigitsValue("25") == 25 by {
      assert "25"[..1] == "2";
    }
    assert DigitsValue("") == 0 && Power10(2) == 100;
    assert DecimalValue(0, 25, 2) == 0.25;
  }

  // ---------------------------------------------------------------------------
  // Equality
  // ---------------------------------------------------------------------------

  /** What a data node can be compared with: another node, a raw value of
      the runtime, or any other object. */
  datatype Object =
    | Node(value: Value)
    | RawString(s: string)
    | RawNumber(n: real)
    | RawBool(b: bool)
    | OtherObject

  /** The raw value a node wraps. */
  function Raw(v: Value): Object {
    match v
    case StringNode(s) => RawString(s)
    case NumberNode(n) => RawNumber(n)
    case BooleanNode(b) => RawBool(b)
  }

  /** `Equals`: a node equals a node of the same kind holding the same value,
      and the raw value of that kind that it holds. */
  function Equals(v: Value, obj: Object): (r: bool)
    ensures r <==> obj == Node(v) || obj == Raw(v)
  {
    match (v, obj)
    case (StringNode(a), Node(StringNode(b))) => a == b
    case (StringNode(a), RawString(b)) => a == b
    case (NumberNode(a), Node(NumberNode(b))) => a == b
    case (NumberNode(a), RawNumber(b)) => a == b
    case (BooleanNode(a), Node(BooleanNode(b))) => a == b
    case (BooleanNode(a), RawBool(b)) => a == b
    case _ => false
  }

  /** Node equality is an equivalence that never relates nodes of different types. */
  lemma EqualsIsEquivalence(a: Value, b: Value, c: Value)
    ensures Equals(a, Node(a))
    ensures Equals(a, Node(b)) ==> Equals(b, Node(a)) && TypeOf(a) == TypeOf(b)
    ensures Equals(a, Node(b)) && Equals(b, Node(c)) ==> Equals(a, Node(c))
  {
  }
}
