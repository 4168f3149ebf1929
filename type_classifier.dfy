/** Which types the rewriter leaves alone: primitives and a fixed allow-list of
    JDK types, matched by exact canonical text. */
module TypeClassifier {
  import opened Syntax

  /** The allow-list, entry for entry (95 distinct strings), compared by exact
      string equality: generic arguments and array brackets are part of the key.
      It is written in four runs of the source's lines so that proofs about a
      single entry look at one run at a time. */
  const BasicTypeList: seq<string> := BasicTypesA + BasicTypesB + BasicTypesC + BasicTypesD

  /** Entries 0 to 23 (source lines 35-39). */
  const BasicTypesA: seq<string> := [
    "int", "long", "short", "float", "double", "boolean", "char", "byte", "java.lang.Integer",
    "java.lang.Long", "java.lang.Float", "java.lang.Double", "java.lang.Boolean", "java.lang.Character",
    "java.lang.Byte", "java.lang.Short", "java.lang.String", "java.lang.Object", "java.lang.Class",
    "java.lang.reflect.Field", "java.lang.Class<?>", "java.io.IOException", "java.lang.StringBuffer",
    "java.util.Map<java.lang.String,java.lang.String>"
  ]

  /** Entries 24 to 53 (source lines 40-46). */
  const BasicTypesB: seq<string> := [
    "java.util.List<java.util.Map<java.lang.String,java.lang.String>>", "java.lang.reflect.Type[]",
    "java.util.List", "java.lang.Object[]", "java.util.Map", "T[]", "java.lang.String[]", "java.io.File",
    "java.io.ByteArrayInputStream", "java.io.ByteArrayOutputStream", "java.io.StringReader",
    "java.io.StringWriter", "java.util.List<java.lang.Integer>", "java.util.Set<java.lang.String>",
    "java.util.Properties", "java.lang.Throwable", "java.lang.ClassLoader", "java.lang.Thread",
    "java.lang.reflect.Method", "java.lang.reflect.Constructor", "java.lang.ref.WeakReference", "byte[]",
    "char[]", "java.io.InputStream", "java.util.Random", "java.lang.Runnable", "java.util.HashMap",
    "java.lang.Runnable[]", "boolean[]", "java.util.LinkedList<java.lang.String>"
  ]

  /** Entries 54 to 75 (source lines 47-51). */
  const BasicTypesC: seq<string> := [
    "java.util.Date", "java.util.UUID", "java.io.File[]", "java.io.PrintWriter",
    "java.util.List<java.lang.String>", "java.lang.StringBuilder", "java.util.List<java.lang.Long>",
    "java.util.Set<java.lang.Long>", "java.util.Set<java.lang.Integer>", "java.util.Calendar",
    "java.util.ArrayList<java.lang.String>",
    "java.util.Map<java.lang.Long,java.util.List<java.lang.String>>", "java.util.List<java.lang.Object[]>",
    "java.lang.Object[][]", "java.math.BigDecimal[]", "java.math.BigDecimal", "long[]", "int[]",
    "java.io.DataInputStream", "java.io.DataOutputStream",
    "java.util.Map<java.lang.String,java.lang.Object[]>", "short[]"
  ]

  /** Entries 76 to 94 (source lines 52-55). */
  const BasicTypesD: seq<string> := [
    "java.lang.String[][]", "long[][]", "short[][]", "boolean[][]", "int[][]", "java.lang.Long[][]",
    "java.io.Writer", "java.io.OutputStream", "Meta", "java.text.DateFormat", "java.text.SimpleDateFormat",
    "java.util.ArrayList", "java.io.BufferedInputStream", "java.io.BufferedReader",
    "java.lang.reflect.Constructor<?>[]", "java.nio.file.Path", "byte[][]", "java.util.Map<byte[],byte[]>",
    "java.util.Set<T>"
  ]

  /** Whether a canonical text is on an allow-list: exact string equality
      with one of its entries, no prefix, suffix or partial matching. The
      rewriters are given the list as a parameter; the batch action gives them
      `BasicTypeList`. */
  predicate IsBasicName(allowList: seq<string>, name: string)
  {
    name in allowList
  }

  /** A missing type is not basic; a primitive type always is; any other type
      is basic exactly when its canonical text is on the allow-list. */
  predicate IsBasicType(allowList: seq<string>, t: Option<JType>)
  {
    t.Some? && (t.value.primitive || IsBasicName(allowList, t.value.canonical))
  }

  /** The classification reads the canonical text and the primitive flag only:
      two types that differ in their presentable text are classified alike. */
  lemma BasicTypeReadsCanonicalOnly(allowList: seq<string>, canonical: string, p: string, p': string, primitive: bool)
    ensures IsBasicType(allowList, Some(JType(canonical, p, primitive)))
            == IsBasicType(allowList, Some(JType(canonical, p', primitive)))
  {
  }

  /** Membership is exact: the raw `java.util.ArrayList` is listed, yet a
      parameterised array list that is not itself an entry is not basic. */
  lemma ExactMatchOnly(presentable: string)
    ensures IsBasicType(BasicTypeList, Some(JType("java.util.ArrayList", presentable, false)))
    ensures !IsBasicType(BasicTypeList, Some(JType("java.util.ArrayList<java.lang.Integer>", presentable, false)))
  {
    assert BasicTypesD[11] == "java.util.ArrayList";
    IntegerArrayListNotInA();
    IntegerArrayListNotInB();
    IntegerArrayListNotInC();
    IntegerArrayListNotInD();
  }

  // `java.util.ArrayList<java.lang.Integer>` is in none of the four runs.

  lemma IntegerArrayListNotInA()
    ensures "java.util.ArrayList<java.lang.Integer>" !in BasicTypesA
  {
  }

  lemma IntegerArrayListNotInB()
    ensures "java.util.ArrayList<java.lang.Integer>" !in BasicTypesB
  {
  }

  lemma IntegerArrayListNotInC()
    ensures "java.util.ArrayList<java.lang.Integer>" !in BasicTypesC
  {
  }

  lemma IntegerArrayListNotInD()
    ensures "java.util.ArrayList<java.lang.Integer>" !in BasicTypesD
  {
  }

  /** The type the IDE builds from a bare class name, as the expression path
      does before classifying: a class type whose canonical text is that name.
      The presentable text is not read on that path. */
  function TypeByName(className: string): (t: JType)
    ensures !t.primitive && t.canonical == className
  {
    JType(className, className, false)
  }

  /** On the expression path the classification is membership of the class
      name itself. */
  lemma ClassNameClassification(allowList: seq<string>, className: string)
    ensures IsBasicType(allowList, Some(TypeByName(className))) <==> IsBasicName(allowList, className)
    ensures !IsBasicType(allowList, None)
  {
  }

  /** Generic types are listed with their type arguments: a list of strings
      is on the allow-list, and so is the raw array list. */
  lemma ListedGenericAndRawTypes()
    ensures IsBasicName(BasicTypeList, "java.util.List<java.lang.String>")
    ensures IsBasicName(BasicTypeList, "java.util.ArrayList")
  {
    assert BasicTypesC[4] == "java.util.List<java.lang.String>";
    assert BasicTypesD[11] == "java.util.ArrayList";
  }
}
