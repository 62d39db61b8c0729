/** Python's `str`, `float` and `bool` applied to a value read from the data
    section or the options: the conversions `ConfigConfig.clazz` and
    `Option.type` stand for (schemascii/configs.py and
    schemascii/data_consumer.py). Which texts `float()` accepts, and which
    of them are zero, are the parameters `acceptsFloat` and
    `floatNonZero`. */
module Builtins {
  import opened Base
  import opened Text

  /** `str(v)`, which is also `f"{v}"`. */
  function StrText(v: Value): string
  {
    match v
    case VInt(i) => IntToString(i)
    case VStr(s) => s
    case VFloat(t) => t
    case VBool(b) => if b then "True" else "False"
  }

  /** `float(v)`: None when it raises ValueError, which only a string that
      is not a number does. */
  function FloatOf(v: Value, acceptsFloat: string -> bool): (r: Option<Value>)
    ensures r.None? <==> v.VStr? && !acceptsFloat(v.s)
    ensures r.Some? ==> r.value.VFloat?
  {
    match v
    case VInt(i) => Some(VFloat(IntToString(i) + ".0"))
    case VStr(s) => if acceptsFloat(s) then Some(VFloat(s)) else None
    case VFloat(_) => Some(v)
    case VBool(b) => Some(VFloat(if b then "1.0" else "0.0"))
  }

  /** `bool(v)`: zero and the empty string are false, anything else is
      true (so is the string `False`). */
  predicate Truth(v: Value, floatNonZero: string -> bool)
  {
    match v
    case VInt(i) => i != 0
    case VStr(s) => s != ""
    case VFloat(t) => floatNonZero(t)
    case VBool(b) => b
  }

  /** `t(v)` for the type named `t`: None when it raises ValueError, or
      when the type is none of `str`, `float` and `bool`. */
  function Call(typeName: string, v: Value, acceptsFloat: string -> bool, floatNonZero: string -> bool)
    : Option<Value>
  {
    if typeName == "str" then Some(VStr(StrText(v)))
    else if typeName == "float" then FloatOf(v, acceptsFloat)
    else if typeName == "bool" then Some(VBool(Truth(v, floatNonZero)))
    else None
  }

  /** `str` and `bool` never raise; `float` raises exactly on a string that
      is not a number; and each gives a value of its own type. */
  lemma CallRaises(typeName: string, v: Value, acceptsFloat: string -> bool, floatNonZero: string -> bool)
    requires typeName in {"str", "float", "bool"}
    ensures var r := Call(typeName, v, acceptsFloat, floatNonZero);
            && (r.None? <==> typeName == "float" && v.VStr? && !acceptsFloat(v.s))
            && (r.Some? ==> (typeName == "str" <==> r.value.VStr?) && (typeName == "bool" <==> r.value.VBool?))
  {
  }

  /** Converting a converted value again leaves it as it is. */
  lemma {:induction false} CallIdempotent(typeName: string, v: Value, acceptsFloat: string -> bool,
                                          floatNonZero: string -> bool)
    requires Call(typeName, v, acceptsFloat, floatNonZero).Some?
    ensures var w := Call(typeName, v, acceptsFloat, floatNonZero).value;
            Call(typeName, w, acceptsFloat, floatNonZero) == Some(w)
  {
  }

  /** `bool("False")` is True and `bool("")` is False. */
  lemma BoolOfText(acceptsFloat: string -> bool, floatNonZero: string -> bool)
    ensures Call("bool", VStr("False"), acceptsFloat, floatNonZero) == Some(VBool(true))
    ensures Call("bool", VStr(""), acceptsFloat, floatNonZero) == Some(VBool(false))
  {
  }

  /** `str(15)` is `15` and `float(15)` is `15.0`. */
  lemma NumberConversions(acceptsFloat: string -> bool, floatNonZero: string -> bool)
    ensures Call("str", VInt(15), acceptsFloat, floatNonZero) == Some(VStr("15"))
    ensures Call("float", VInt(15), acceptsFloat, floatNonZero) == Some(VFloat("15.0"))
  {
    assert IntToString(15) == "15";
    assert "float" != "str" by { assert |"float"| != |"str"|; }
    assert Call("float", VInt(15), acceptsFloat, floatNonZero) == FloatOf(VInt(15), acceptsFloat);
    var f := IntToString(15) + ".0";
    assert f[0] == '1' && f[1] == '5' && f[2] == '.' && f[3] == '0' && |f| == 4;
    assert f == "15.0";
  }
}
