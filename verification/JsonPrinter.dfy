/**
 The writer object: an output stream and a stack of levels, updated in place by one method per event,
 and the traversal of a value that drives it.
 */
module JsonPrinter {
  import opened JsonScan
  import opened JsonDom
  import opened JsonWriter
  import opened JsonGrammar
  import opened JsonRoundTrip
  import JsonDocument

  class Writer {
    const format: Format
    var os: string
    var state: State

    constructor (format: Format)
      ensures this.format == format && os == "" && state == FRESH
    {
      this.format := format;
      os, state := "", FRESH;
    }

    /** What an event changes. */
    predicate Advanced(w: Written, was: string)
      reads this
    {
      w.Wrote? && state == w.state && os == was + w.text
    }

    // ---- characters ----

    method Put(s: string)
      modifies `os
      ensures os == old(os) + s
    {
      os := os + s;
    }

    method PutN(c: char, n: nat)
      modifies `os
      ensures os == old(os) + Repeat(c, n)
    {
      var i := n;
      while i > 0
        invariant os + Repeat(c, i) == old(os) + Repeat(c, n)
      {
        assert os + [c] + Repeat(c, i - 1) == os + ([c] + Repeat(c, i - 1));
        os := os + [c];
        i := i - 1;
      }
      assert os + "" == os;
    }

    method WriteIndent()
      requires format.Pretty?
      modifies `os
      ensures os == old(os) + Indent(format, Depth(state))
    {
      var count := Depth(state) * format.indentCount;
      PutN(format.indentChar, count);
    }

    method WriteEscape(c: char)
      modifies `os
      ensures os == old(os) + Escape(c)
    {
      if c == '\"' || c == '\\' {
        Put(['\\', c]);
      } else if c as int == 8 {
        Put("\\b");
      } else if c as int == 9 {
        Put("\\t");
      } else if c as int == 10 {
        Put("\\n");
      } else if c as int == 12 {
        Put("\\f");
      } else if c as int == 13 {
        Put("\\r");
      } else if c < ' ' {
        Put(['\\', 'u', '0', '0', HexChar(c as int / 16), HexChar(c as int % 16)]);
      } else {
        Put([c]);
      }
    }

    method WriteString(s: string)
      modifies `os
      ensures os == old(os) + Quote(s)
    {
      Put("\"");
      var i := 0;
      while i < |s|
        invariant i <= |s| && os + Escapes(s[i..]) == old(os) + "\"" + Escapes(s)
      {
        ghost var rest := Escapes(s[i + 1..]);
        assert s[i..][1..] == s[i + 1..];
        assert os + Escape(s[i]) + rest == os + (Escape(s[i]) + rest);
        WriteEscape(s[i]);
        i := i + 1;
      }
      assert os + "" == os;
      Put("\"");
      assert old(os) + "\"" + Escapes(s) + "\"" == old(os) + ("\"" + Escapes(s) + "\"");
    }

    // ---- levels ----

    /** What goes before a value or a name, which is then counted. */
    method WritePrefix()
      requires TakesValue(state) || TakesName(state)
      modifies `os, `state
      ensures state == Bump(old(state)) && os == old(os) + Before(format, old(state))
    {
      if state.Level? {
        var inArray, count := state.inArray, state.valueCount;
        if format.Compact? {
          if count > 0 {
            Put(if inArray || count % 2 == 0 then "," else ":");
          }
        } else if inArray {
          if count > 0 {
            Put(",");
            if format.singleLineArray { Put(" "); }
          }
          if !format.singleLineArray {
            Put("\n");
            WriteIndent();
          }
        } else {
          if count > 0 {
            if count % 2 == 0 {
              Put(",");
              Put("\n");
            } else {
              Put(":");
              Put(" ");
            }
          } else {
            Put("\n");
          }
          if count % 2 == 0 { WriteIndent(); }
        }
        state := Level(inArray, count + 1, state.below);
      } else {
        state := Bottom(true);
      }
    }

    method WriteClosing(inArray: bool, empty: bool)
      modifies `os
      ensures os == old(os) + Closing(format, Depth(state), inArray, empty)
    {
      if format.Pretty? && !empty && !(inArray && format.singleLineArray) {
        Put("\n");
        WriteIndent();
      }
    }

    // ---- events ----

    method Null()
      requires TakesValue(state)
      modifies `os, `state
      ensures Advanced(Write(format, old(state), NullEvent), old(os))
    {
      WritePrefix();
      Put("null");
    }

    method Bool(b: bool)
      requires TakesValue(state)
      modifies `os, `state
      ensures Advanced(Write(format, old(state), Event.Bool(b)), old(os))
    {
      WritePrefix();
      Put(if b then "true" else "false");
    }

    method Int(i: int)
      requires TakesValue(state) && 0 - TWO31 <= i < TWO31
      modifies `os, `state
      ensures Advanced(Write(format, old(state), Event.Int(i)), old(os))
    {
      ghost var was, before := os, Before(format, state);
      WritePrefix();
      var buffer := new Itoa.Buffer();
      buffer.I32toa(i);
      Put(buffer.text);
      Joins(was, before, buffer.text, Itoa.Signed(i));
    }

    method Uint(u: nat)
      requires TakesValue(state) && u < TWO32
      modifies `os, `state
      ensures Advanced(Write(format, old(state), Event.Uint(u)), old(os))
    {
      ghost var was, before := os, Before(format, state);
      WritePrefix();
      var buffer := new Itoa.Buffer();
      buffer.U32toa(u);
      Put(buffer.text);
      Joins(was, before, buffer.text, Itoa.Signed(u));
    }

    method Int64(i: int)
      requires TakesValue(state) && 0 - TWO63 <= i < TWO63
      modifies `os, `state
      ensures Advanced(Write(format, old(state), Event.Int64(i)), old(os))
    {
      ghost var was, before := os, Before(format, state);
      WritePrefix();
      var buffer := new Itoa.Buffer();
      buffer.I64toa(i);
      Put(buffer.text);
      Joins(was, before, buffer.text, Itoa.Signed(i));
    }

    method Uint64(u: nat)
      requires TakesValue(state) && u < TWO64
      modifies `os, `state
      ensures Advanced(Write(format, old(state), Event.Uint64(u)), old(os))
    {
      ghost var was, before := os, Before(format, state);
      WritePrefix();
      var buffer := new Itoa.Buffer();
      buffer.U64toa(u);
      Put(buffer.text);
      Joins(was, before, buffer.text, Itoa.Signed(u));
    }

    method String(s: string)
      requires TakesValue(state)
      modifies `os, `state
      ensures Advanced(Write(format, old(state), Event.String(s)), old(os))
    {
      ghost var was, before := os, Before(format, state);
      WritePrefix();
      WriteString(s);
      Appends(was, before, Quote(s));
    }

    method Key(s: string)
      requires TakesName(state)
      modifies `os, `state
      ensures Advanced(Write(format, old(state), Event.Key(s)), old(os))
    {
      ghost var was, before := os, Before(format, state);
      WritePrefix();
      WriteString(s);
      Appends(was, before, Quote(s));
    }

    method StartObject()
      requires TakesValue(state)
      modifies `os, `state
      ensures Advanced(Write(format, old(state), Event.StartObject), old(os))
    {
      WritePrefix();
      state := Level(false, 0, state);
      Put("{");
    }

    method EndObject(memberCount: nat)
      requires TakesName(state)
      modifies `os, `state
      ensures Advanced(Write(format, old(state), Event.EndObject(memberCount)), old(os))
    {
      var empty := state.valueCount == 0;
      state := state.below;
      WriteClosing(false, empty);
      Put("}");
    }

    method StartArray()
      requires TakesValue(state)
      modifies `os, `state
      ensures Advanced(Write(format, old(state), Event.StartArray), old(os))
    {
      WritePrefix();
      state := Level(true, 0, state);
      Put("[");
    }

    method EndArray(elementCount: nat)
      requires state.Level? && state.inArray
      modifies `os, `state
      ensures Advanced(Write(format, old(state), Event.EndArray(elementCount)), old(os))
    {
      var empty := state.valueCount == 0;
      state := state.below;
      WriteClosing(true, empty);
      Put("]");
    }

    // ---- traversal ----

    method AcceptNumber(v: Value)
      requires Proper(v) && v.NumberValue? && TakesValue(state)
      modifies `os, `state
      ensures state == Bump(old(state))
      ensures os == old(os) + (Before(format, old(state)) + Itoa.Signed(Integer(v)))
    {
      NumberEventIs(Integer(v));
      if IntFlag in v.flags {
        Int(Signed32(v.bits % TWO32));
      } else if UintFlag in v.flags {
        Uint(v.bits % TWO32);
      } else if Int64Flag in v.flags {
        Int64(Signed64(v.bits));
      } else {
        Uint64(v.bits);
      }
    }

    /** Writes a value: every element and every member in order, between its start and its end. */
    method Accept(v: Value)
      requires Proper(v) && DoubleFree(v) && TakesValue(state)
      modifies `os, `state
      ensures state == Bump(old(state))
      ensures os == old(os) + (Before(format, old(state)) + ValueText(format, v, Depth(old(state))))
      decreases v, 1
    {
      match v {
        case NullValue => Null();
        case BoolValue(b) => Bool(b);
        case NumberValue(_, _) => AcceptNumber(v);
        case StringValue(s) => String(s);
        case ArrayValue(es) => AcceptArray(es);
        case ObjectValue(ms) => AcceptObject(ms);
      }
    }

    method AcceptArray(es: seq<Value>)
      requires ProperElements(es) && DoubleFreeElements(es) && TakesValue(state)
      modifies `os, `state
      ensures state == Bump(old(state))
      ensures os == old(os) + (Before(format, old(state)) + ValueText(format, ArrayValue(es), Depth(old(state))))
      decreases es, 1
    {
      ghost var st, d, before := state, Depth(state), Before(format, state);
      StartArray();
      AcceptElements(es, st);
      EndArray(|es|);
      Encloses(old(os), before, "[", ElementsText(format, es, 0, d + 1), Closing(format, d, true, es == []), "]");
    }

    method AcceptElements(es: seq<Value>, ghost st: State)
      requires ProperElements(es) && DoubleFreeElements(es) && state == Inside(st, true, 0)
      modifies `os, `state
      ensures state == Inside(st, true, |es|) && os == old(os) + ElementsText(format, es, 0, Depth(st) + 1)
      decreases es, 0
    {
      hide ValueText, Prefix, Closing;
      ghost var d := Depth(st) + 1;
      var i := 0;
      while i < |es|
        invariant i <= |es| && state == Inside(st, true, i)
        invariant ProperElements(es[i..]) && DoubleFreeElements(es[i..])
        invariant os + ElementsText(format, es[i..], i, d) == old(os) + ElementsText(format, es, 0, d)
      {
        ElementsFrom(format, es, i, d);
        ghost var was, rest := os, ElementsText(format, es[i + 1..], i + 1, d);
        Accept(es[i]);
        Appends(was, Prefix(format, d, true, i) + ValueText(format, es[i], d), rest);
        i := i + 1;
      }
      assert es[|es|..] == [] && os + "" == os;
    }

    method AcceptObject(ms: seq<Member>)
      requires ProperMembers(ms) && DoubleFreeMembers(ms) && TakesValue(state)
      modifies `os, `state
      ensures state == Bump(old(state))
      ensures os == old(os) + (Before(format, old(state)) + ValueText(format, ObjectValue(ms), Depth(old(state))))
      decreases ms, 1
    {
      hide MembersText;
      ghost var st, d, before := state, Depth(state), Before(format, state);
      StartObject();
      AcceptMembers(ms, st);
      EndObject(|ms|);
      Encloses(old(os), before, "{", MembersText(format, ms, 0, d + 1), Closing(format, d, false, ms == []), "}");
    }

    method AcceptMembers(ms: seq<Member>, ghost st: State)
      requires ProperMembers(ms) && DoubleFreeMembers(ms) && state == Inside(st, false, 0)
      modifies `os, `state
      ensures state == Inside(st, false, 2 * |ms|) && os == old(os) + MembersText(format, ms, 0, Depth(st) + 1)
      decreases ms, 0
    {
      hide MemberText, Prefix, Closing, Before;
      ghost var d := Depth(st) + 1;
      var i := 0;
      while i < |ms|
        invariant i <= |ms| && state == Inside(st, false, 2 * i)
        invariant ProperMembers(ms[i..]) && DoubleFreeMembers(ms[i..])
        invariant os + MembersText(format, ms[i..], i, d) == old(os) + MembersText(format, ms, 0, d)
      {
        MembersFrom(format, ms, i, d);
        ghost var was, rest := os, MembersText(format, ms[i + 1..], i + 1, d);
        AcceptMember(ms[i], st, i);
        Appends(was, MemberText(format, ms[i], i, d), rest);
        i := i + 1;
      }
      assert ms[|ms|..] == [] && os + "" == os;
    }

    method AcceptMember(member: Member, ghost st: State, ghost i: nat)
      requires ProperMember(member) && DoubleFreeMember(member) && state == Inside(st, false, 2 * i)
      modifies `os, `state
      ensures state == Inside(st, false, 2 * (i + 1)) && os == old(os) + MemberText(format, member, i, Depth(st) + 1)
      decreases member
    {
      ghost var d := Depth(st) + 1;
      ghost var p, q := Prefix(format, d, false, 2 * i), Prefix(format, d, false, 2 * i + 1);
      Key(member.name.s);
      Accept(member.value);
      MemberJoins(old(os), p, Quote(member.name.s), q, ValueText(format, member.value, d));
    }
  }

  lemma {:induction false} Appends(was: string, text: string, rest: string)
    ensures was + text + rest == was + (text + rest)
  {
  }

  lemma {:induction false} Joins(was: string, before: string, buffer: string, text: string)
    requires buffer == "" + text
    ensures was + before + buffer == was + (before + text)
  {
  }

  lemma {:induction false} ElementsFrom(f: Format, es: seq<Value>, i: nat, d: nat)
    requires i < |es| && ProperElements(es[i..]) && DoubleFreeElements(es[i..])
    ensures Proper(es[i]) && DoubleFree(es[i]) && ProperElements(es[i + 1..]) && DoubleFreeElements(es[i + 1..])
    ensures ElementsText(f, es[i..], i, d) == Prefix(f, d, true, i) + ValueText(f, es[i], d) + ElementsText(f, es[i + 1..], i + 1, d)
  {
    assert es[i..][0] == es[i] && es[i..][1..] == es[i + 1..];
  }

  lemma {:induction false} MembersFrom(f: Format, ms: seq<Member>, i: nat, d: nat)
    requires i < |ms| && ProperMembers(ms[i..]) && DoubleFreeMembers(ms[i..])
    ensures ProperMember(ms[i]) && DoubleFreeMember(ms[i]) && ProperMembers(ms[i + 1..]) && DoubleFreeMembers(ms[i + 1..])
    ensures MembersText(f, ms[i..], i, d) == MemberText(f, ms[i], i, d) + MembersText(f, ms[i + 1..], i + 1, d)
  {
    assert ms[i..][0] == ms[i] && ms[i..][1..] == ms[i + 1..];
  }

  lemma {:induction false} Encloses(was: string, before: string, a: string, body: string, end: string, b: string)
    ensures was + (before + a) + body + (end + b) == was + (before + (a + body + end + b))
  {
  }

  lemma {:induction false} MemberJoins(was: string, p: string, name: string, q: string, v: string)
    ensures was + (p + name) + (q + v) == was + (p + name + q + v)
  {
  }

  /** Prints a value. */
  method Print(format: Format, v: Value) returns (text: string)
    requires Proper(v) && DoubleFree(v) && Usable(format)
    ensures text == ValueText(format, v, 0)
    ensures forall cfg :: Recursive(cfg, text) == Accepted(Events(v, Reading), "")
  {
    var writer := new Writer(format);
    writer.Accept(v);
    text := writer.os;
    assert "" + ("" + ValueText(format, v, 0)) == ValueText(format, v, 0);
    forall cfg ensures Recursive(cfg, text) == Accepted(Events(v, Reading), "") {
      PrintedTextParses(cfg, format, v);
    }
  }

  /** Prints a value and parses the text into a document again: the document is the value. */
  method RoundTrip(cfg: Config, format: Format, v: Value) returns (text: string, w: Value)
    requires Proper(v) && DoubleFree(v) && Usable(format)
    ensures text == ValueText(format, v, 0) && w == v
  {
    text := Print(format, v);
    PrintedTextParses(cfg, format, v);
    var document := new JsonDocument.Document();
    var result := document.ParseStream(cfg, text);
    w := document.root;
    assert [v][0] == [w][0];
  }
}
