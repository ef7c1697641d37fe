/** The unparser as a program that appends to a buffer. */
module Unparser {
  import opened Text
  import opened Expressions
  import opened Escapes
  import opened Decimal
  import opened Rendering

  lemma {:induction false} Join2(a: string, b: string, c: string)
    ensures (a + b) + c == a + (b + c)
  {
  }

  lemma {:induction false} Join3(a: string, b: string, c: string, d: string)
    ensures ((a + b) + c) + d == a + (b + (c + d))
  {
  }

  lemma {:induction false} Join5(a: string, b: string, c: string, d: string, e: string, f: string)
    ensures ((((a + b) + c) + d) + e) + f == a + (b + (c + (d + (e + f))))
  {
  }

  class ClassAdUnParser {
    var buffer: string
    var delimiter: char

    constructor ()
      ensures buffer == "" && delimiter == '"'
    {
      buffer, delimiter := "", '"';
    }

    /** A string between double quotes; the delimiter decides which quote is escaped inside. */
    method UnparseString(s: string)
      requires IsText(s) && IsQuote(delimiter)
      modifies this`buffer
      ensures buffer == old(buffer) + ("\"" + Escape(s, delimiter) + "\"")
    {
      buffer := buffer + "\"";
      ghost var start, done := buffer, "";
      var i := 0;
      while i < |s|
        invariant 0 <= i <= |s|
        invariant buffer == start + done && done + Escape(s[i..], delimiter) == Escape(s, delimiter)
      {
        assert s[i..][1..] == s[i + 1..];
        Join2(done, EscapeChar(s[i], delimiter), Escape(s[i + 1..], delimiter));
        Join2(start, done, EscapeChar(s[i], delimiter));
        buffer := buffer + EscapeChar(s[i], delimiter);
        done := done + EscapeChar(s[i], delimiter);
        i := i + 1;
      }
      assert s[i..] == "" && done == Escape(s, delimiter);
      buffer := buffer + "\"";
      Join3(old(buffer), "\"", done, "\"");
      Join2("\"", done, "\"");
    }

    /** A name is unparsed as a string in quoted-attribute mode, and its quotes are then replaced
        or dropped. */
    method UnparseName(name: string)
      requires IsText(name) && delimiter == '"'
      modifies this
      ensures buffer == old(buffer) + NameText(name) && delimiter == '"'
    {
      var saved := buffer;
      buffer := "";
      delimiter := '\'';
      UnparseString(name);
      delimiter := '"';
      var idstr := buffer[1..];
      idstr := idstr[..|idstr| - 1];
      assert idstr == Escape(name, '\'');
      if NeedsQuoting(idstr) {
        idstr := "'" + idstr;
        idstr := idstr + "'";
      }
      buffer := saved + idstr;
    }

    method UnparseValue(v: Value)
      requires delimiter == '"'
      modifies this
      ensures buffer == old(buffer) + ValueText(v) && delimiter == '"'
    {
      hide Numeral;
      hide Escape;
      match v {
        case Undefined => buffer := buffer + "undefined";
        case Error => buffer := buffer + "error";
        case Bool(b) => buffer := buffer + if b then "true" else "false";
        case Int(i) =>
          if i < 0 {
            buffer := buffer + ("-" + Numeral(-i));
          } else {
            buffer := buffer + Numeral(i);
          }
        case Str(s) =>
          if IsText(s) { UnparseString(s); }
        case Real(_) =>
        case AdValue(_) =>
      }
    }

    method Unparse(e: Expr)
      requires delimiter == '"'
      modifies this
      ensures buffer == old(buffer) + TextOf(e) && delimiter == '"'
      decreases e, 1
    {
      hide NameText;
      hide IsText;
      hide ValueText;
      ghost var start := buffer;
      match e {
        case Literal(v) => UnparseValue(v);
        case Ref(name, absolute) =>
          if absolute { buffer := buffer + "."; }
          if IsText(name) { UnparseName(name); }
          Join2(start, if absolute then "." else "", if IsText(name) then NameText(name) else "");
        case Select(base, attr) =>
          Unparse(base);
          buffer := buffer + ("." + attr);
          Join2(start, TextOf(base), "." + attr);
        case Unary(op, arg) => UnparseUnary(op, arg, e);
        case Binary(op, l, r) => UnparseBinary(op, l, r, e);
        case Ternary(c, t, f) => UnparseTernary(c, t, f, e);
        case Call(_, _) => UnparseBracketed(e);
        case ExprList(_) => UnparseBracketed(e);
        case Ad(_) => UnparseBracketed(e);
      }
    }

    method UnparseBracketed(e: Expr)
      requires delimiter == '"' && (e.Call? || e.ExprList? || e.Ad?)
      modifies this
      ensures buffer == old(buffer) + TextOf(e) && delimiter == '"'
      decreases e, 0
    {
      ghost var start := buffer;
      match e {
        case Call(fn, args) =>
          buffer := buffer + fn;
          buffer := buffer + "(";
          UnparseItems(args);
          buffer := buffer + ")";
          Join3(start + fn, "(", ItemsText(args), ")");
          Join2(start, fn, "(" + (ItemsText(args) + ")"));
        case ExprList(elems) =>
          buffer := buffer + "{ ";
          UnparseItems(elems);
          buffer := buffer + " }";
          Join3(start, "{ ", ItemsText(elems), " }");
        case Ad(attrs) =>
          buffer := buffer + "[ ";
          UnparseAttributes(attrs);
          buffer := buffer + " ]";
          Join3(start, "[ ", AttributesText(attrs), " ]");
      }
    }

    method UnparseTernary(c: Expr, t: Expr, f: Expr, ghost e: Expr)
      requires delimiter == '"' && e == Ternary(c, t, f)
      modifies this
      ensures buffer == old(buffer) + TextOf(e) && delimiter == '"'
      decreases e, 0
    {
      ghost var start := buffer;
      Unparse(c);
      buffer := buffer + " ? ";
      Unparse(t);
      buffer := buffer + " : ";
      Unparse(f);
      Join5(start, TextOf(c), " ? ", TextOf(t), " : ", TextOf(f));
    }

    method UnparseUnary(op: UnaryOp, arg: Expr, ghost e: Expr)
      requires delimiter == '"' && e == Unary(op, arg)
      modifies this
      ensures buffer == old(buffer) + TextOf(e) && delimiter == '"'
      decreases e, 0
    {
      ghost var start := buffer;
      if op.Parentheses? {
        buffer := buffer + "( ";
        Unparse(arg);
        buffer := buffer + " )";
        Join3(start, "( ", TextOf(arg), " )");
      } else {
        buffer := buffer + (" " + UnarySymbol(op));
        Unparse(arg);
        Join2(start, " " + UnarySymbol(op), TextOf(arg));
      }
    }

    method UnparseBinary(op: BinaryOp, l: Expr, r: Expr, ghost e: Expr)
      requires delimiter == '"' && e == Binary(op, l, r)
      modifies this
      ensures buffer == old(buffer) + TextOf(e) && delimiter == '"'
      decreases e, 0
    {
      ghost var start := buffer;
      Unparse(l);
      if op.Subscript? {
        buffer := buffer + "[";
        Unparse(r);
        buffer := buffer + "]";
        Join3(start + TextOf(l), "[", TextOf(r), "]");
        Join2(start, TextOf(l), "[" + (TextOf(r) + "]"));
      } else {
        buffer := buffer + " ";
        buffer := buffer + OpSymbol(op);
        buffer := buffer + " ";
        Unparse(r);
        Join5(start, TextOf(l), " ", OpSymbol(op), " ", TextOf(r));
      }
    }

    method UnparseItems(es: seq<Expr>)
      requires delimiter == '"'
      modifies this
      ensures buffer == old(buffer) + ItemsText(es) && delimiter == '"'
      decreases es, 0
    {
      ghost var start, done := buffer, "";
      var i := 0;
      while i < |es|
        invariant 0 <= i <= |es| && delimiter == '"'
        invariant buffer == start + done && done + ItemsText(es[i..]) == ItemsText(es)
      {
        hide TextOf;
        ghost var sep := if i + 1 == |es| then "" else ",";
        Unparse(es[i]);
        if i + 1 != |es| {
          buffer := buffer + ",";
        }
        ItemsTextAt(es, i);
        Regroup(start, done, TextOf(es[i]), sep, ItemsText(es[i + 1..]));
        done := (done + TextOf(es[i])) + sep;
        i := i + 1;
      }
      assert es[i..] == [];
    }

    method UnparseAttributes(attrs: seq<Attr>)
      requires delimiter == '"'
      modifies this
      ensures buffer == old(buffer) + AttributesText(attrs) && delimiter == '"'
      decreases attrs, 0
    {
      ghost var start, done := buffer, "";
      var i := 0;
      while i < |attrs|
        invariant 0 <= i <= |attrs| && delimiter == '"'
        invariant buffer == start + done && done + AttributesText(attrs[i..]) == AttributesText(attrs)
      {
        hide AttributeText;
        ghost var sep := if i + 1 == |attrs| then "" else "; ";
        UnparseAttribute(attrs[i]);
        if i + 1 != |attrs| {
          buffer := buffer + "; ";
        }
        AttributesTextAt(attrs, i);
        Regroup(start, done, AttributeText(attrs[i]), sep, AttributesText(attrs[i + 1..]));
        done := (done + AttributeText(attrs[i])) + sep;
        i := i + 1;
      }
      assert attrs[i..] == [];
    }

    method UnparseAttribute(a: Attr)
      requires delimiter == '"'
      modifies this
      ensures buffer == old(buffer) + AttributeText(a) && delimiter == '"'
      decreases a, 0
    {
      hide NameText;
      hide IsText;
      ghost var start := buffer;
      if IsText(a.name) { UnparseName(a.name); }
      buffer := buffer + " = ";
      Unparse(a.expr);
      Join3(start, if IsText(a.name) then NameText(a.name) else "", " = ", TextOf(a.expr));
    }
  }

  lemma {:induction false} ItemsTextAt(es: seq<Expr>, i: nat)
    requires i < |es|
    ensures ItemsText(es[i..]) == (TextOf(es[i]) + (if i + 1 == |es| then "" else ",")) + ItemsText(es[i + 1..])
  {
    var tail := es[i..];
    assert tail[1..] == es[i + 1..] && tail[0] == es[i];
    if i + 1 < |es| {
      Join2(TextOf(es[i]), ",", ItemsText(es[i + 1..]));
    }
  }

  lemma {:induction false} AttributesTextAt(attrs: seq<Attr>, i: nat)
    requires i < |attrs|
    ensures AttributesText(attrs[i..])
         == (AttributeText(attrs[i]) + (if i + 1 == |attrs| then "" else "; ")) + AttributesText(attrs[i + 1..])
  {
    hide AttributeText;
    var tail := attrs[i..];
    assert tail[1..] == attrs[i + 1..] && tail[0] == attrs[i];
    if i + 1 < |attrs| {
      Join2(AttributeText(attrs[i]), "; ", AttributesText(attrs[i + 1..]));
    }
  }

  lemma {:induction false} Regroup(start: string, done: string, item: string, sep: string, rest: string)
    ensures ((start + done) + item) + sep == start + ((done + item) + sep)
    ensures done + ((item + sep) + rest) == ((done + item) + sep) + rest
  {
  }
}
