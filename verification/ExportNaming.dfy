/** Names of the files in an export archive, and why no two of them are the same. */
module ExportNaming {
  import opened Wrappers

  // ----------------------------------------------------------------- numerals

  function Digit(d: nat): char
    requires d < 10
  {
    ('0' as int + d) as char
  }

  function Dec(n: nat): string {
    if n < 10 then [Digit(n)] else Dec(n / 10) + [Digit(n % 10)]
  }

  predicate IsDigit(c: char) { '0' <= c <= '9' }

  predicate Digits(s: string) { forall i | 0 <= i < |s| :: IsDigit(s[i]) }

  function Value(s: string): nat
    requires Digits(s)
  {
    if s == "" then 0 else 10 * Value(s[..|s| - 1]) + (s[|s| - 1] as int - '0' as int)
  }

  lemma {:induction false} DecValue(n: nat)
    ensures Digits(Dec(n)) && Value(Dec(n)) == n && Dec(n) != ""
  {
    if n >= 10 {
      DecValue(n / 10);
      assert Dec(n)[..|Dec(n)| - 1] == Dec(n / 10);
    } else {
      assert Dec(n)[..0] == "";
    }
  }

  function Zeros(k: nat): string { seq(k, i => '0') }

  lemma {:induction false} ZerosValue(k: nat, s: string)
    requires Digits(s)
    ensures Digits(Zeros(k) + s) && Value(Zeros(k) + s) == Value(s)
    decreases |s|, k
  {
    var t := Zeros(k) + s;
    if s != "" {
      assert t[..|t| - 1] == Zeros(k) + s[..|s| - 1];
      ZerosValue(k, s[..|s| - 1]);
    } else if k > 0 {
      assert t[..|t| - 1] == Zeros(k - 1) + s;
      ZerosValue(k - 1, s);
    } else {
      assert t == s;
    }
  }

  /** `{user_id:05d}`. */
  function Padded(n: nat): string {
    Zeros(if |Dec(n)| < 5 then 5 - |Dec(n)| else 0) + Dec(n)
  }

  lemma PaddedValue(n: nat)
    ensures Digits(Padded(n)) && Value(Padded(n)) == n
  {
    DecValue(n);
    ZerosValue(if |Dec(n)| < 5 then 5 - |Dec(n)| else 0, Dec(n));
  }

  lemma {:induction false} DecLeads(n: nat)
    ensures Dec(n) != "" && (n > 0 ==> Dec(n)[0] != '0')
  {
    if n >= 10 {
      DecLeads(n / 10);
    }
  }

  /** Five digits, or as many as the number needs. */
  lemma PaddedWidth(n: nat)
    ensures |Padded(n)| >= 5 && (|Padded(n)| > 5 ==> Padded(n)[0] != '0')
  {
    DecLeads(n);
  }

  // -------------------------------------------------------------------- names

  /** The number of a report or lesson plan: its upload, a report without one, or a file
      of the old layout. */
  datatype Number = ByUpload(id: nat) | ByReport(id: nat) | ByOrdinal(id: nat)

  function NumberText(n: Number): string {
    match n
    case ByUpload(id) => Dec(id)
    case ByReport(id) => "r" + Dec(id)
    case ByOrdinal(id) => "fs" + Dec(id)
  }

  /** One file of the archive. The slug is whatever is left of the original name. */
  datatype Entry =
    | Report(user: nat, number: Number, slug: string)
    | Plan(user: nat, number: Number, slug: string)
    | Conversation(user: nat, session: nat, upload: Option<nat>, slug: string)
    | SimulationLog(user: nat, session: nat, lesson: nat, slug: string)
    | SimulationReport(user: nat, session: nat, lesson: nat, slug: string)

  function Prefix(user: nat): string { "u" + Padded(user) }

  function NumberedName(user: nat, kind: string, number: Number, slug: string): string {
    Prefix(user) + "_" + ("_" + kind + "_" + (NumberText(number) + "_" + ("_" + slug)))
  }

  function SessionName(user: nat, upload: nat, kind: string, slug: string, session: nat): string {
    Prefix(user) + "__" + kind + "_" + Dec(upload) + "__" + slug + "__s" + Dec(session)
  }

  function ConversationName(user: nat, session: nat, upload: Option<nat>, slug: string): string {
    match upload
    case None => Prefix(user) + "__conversation_s" + Dec(session)
    case Some(u) => SessionName(user, u, "conversation", slug, session)
  }

  function Path(e: Entry): string {
    match e
    case Report(user, number, slug) => "reports/" + NumberedName(user, "report", number, slug) + ".md"
    case Plan(user, number, slug) => "lessonplans/" + NumberedName(user, "lessonplan", number, slug)
    case Conversation(user, session, upload, slug) =>
      "conversations/" + ConversationName(user, session, upload, slug) + ".jsonl"
    case SimulationLog(user, session, upload, slug) =>
      "simulations/" + SessionName(user, upload, "simsession", slug, session) + ".jsonl"
    case SimulationReport(user, session, upload, slug) =>
      "simulations/" + SessionName(user, upload, "simsession", slug, session) + ".md"
  }

  lemma NumberedForm(user: nat, kind: string, number: Number, slug: string)
    ensures NumberedName(user, kind, number, slug)
            == "u" + Padded(user) + "__" + kind + "_" + NumberText(number) + "__" + slug
  {
    var head, tail := Prefix(user), NumberText(number) + "_" + ("_" + slug);
    assert tail == NumberText(number) + "__" + slug;
    assert head + "_" + ("_" + kind + "_" + tail) == head + "__" + kind + "_" + tail;
    assert head + "__" + kind + "_" + tail == head + "__" + kind + "_" + NumberText(number) + "__" + slug;
  }

  /** The names in full: of a report, */
  lemma ReportForm(user: nat, id: nat, slug: string)
    ensures Path(Report(user, ByUpload(id), slug))
            == "reports/" + ("u" + Padded(user) + "__" + "report" + "_" + Dec(id) + "__" + slug) + ".md"
    ensures Path(Report(user, ByReport(id), slug))
            == "reports/" + ("u" + Padded(user) + "__" + "report" + "_" + ("r" + Dec(id)) + "__" + slug) + ".md"
  {
    NumberedForm(user, "report", ByUpload(id), slug);
    NumberedForm(user, "report", ByReport(id), slug);
  }

  /** of a lesson plan, */
  lemma PlanForm(user: nat, id: nat, slug: string)
    ensures Path(Plan(user, ByUpload(id), slug))
            == "lessonplans/" + ("u" + Padded(user) + "__" + "lessonplan" + "_" + Dec(id) + "__" + slug)
    ensures Path(Plan(user, ByReport(id), slug))
            == "lessonplans/" + ("u" + Padded(user) + "__" + "lessonplan" + "_" + ("r" + Dec(id)) + "__" + slug)
    ensures Path(Plan(user, ByOrdinal(id), slug))
            == "lessonplans/" + ("u" + Padded(user) + "__" + "lessonplan" + "_" + ("fs" + Dec(id)) + "__" + slug)
  {
    NumberedForm(user, "lessonplan", ByUpload(id), slug);
    NumberedForm(user, "lessonplan", ByReport(id), slug);
    NumberedForm(user, "lessonplan", ByOrdinal(id), slug);
  }

  lemma SessionForm(user: nat, upload: nat, kind: string, slug: string, session: nat)
    ensures SessionName(user, upload, kind, slug, session)
            == "u" + Padded(user) + "__" + kind + "_" + Dec(upload) + "__" + slug + "__s" + Dec(session)
  {
  }

  /** and of what a session leaves. */
  lemma SessionForms(user: nat, id: nat, session: nat, slug: string)
    ensures Path(Conversation(user, session, None, slug))
            == "conversations/" + ("u" + Padded(user) + "__conversation_s" + Dec(session)) + ".jsonl"
    ensures Path(Conversation(user, session, Some(id), slug))
            == "conversations/" + ("u" + Padded(user) + "__" + "conversation" + "_" + Dec(id) + "__" + slug + "__s" + Dec(session)) + ".jsonl"
    ensures Path(SimulationLog(user, session, id, slug))
            == "simulations/" + ("u" + Padded(user) + "__" + "simsession" + "_" + Dec(id) + "__" + slug + "__s" + Dec(session)) + ".jsonl"
    ensures Path(SimulationReport(user, session, id, slug))
            == "simulations/" + ("u" + Padded(user) + "__" + "simsession" + "_" + Dec(id) + "__" + slug + "__s" + Dec(session)) + ".md"
  {
    SessionForm(user, id, "conversation", slug, session);
    SessionForm(user, id, "simsession", slug, session);
  }

  /** What makes an entry the one it is, name and owner of a session aside. */
  predicate SameItem(e: Entry, f: Entry) {
    match e
    case Report(user, number, _) => f.Report? && f.user == user && f.number == number
    case Plan(user, number, _) => f.Plan? && f.user == user && f.number == number
    case Conversation(_, session, _, _) => f.Conversation? && f.session == session
    case SimulationLog(_, session, _, _) => f.SimulationLog? && f.session == session
    case SimulationReport(_, session, _, _) => f.SimulationReport? && f.session == session
  }

  // --------------------------------------------------------------- uniqueness

  predicate NoLine(s: string) { forall i | 0 <= i < |s| :: s[i] != '_' }

  lemma LineAt(x: string, r: string)
    requires NoLine(x)
    ensures (x + "_" + r)[|x|] == '_' && forall k | 0 <= k < |x| :: (x + "_" + r)[k] != '_'
  {
  }

  /** Up to the first underscore two equal texts agree. */
  lemma TokenUnique(x: string, r: string, y: string, t: string)
    requires NoLine(x) && NoLine(y) && x + "_" + r == y + "_" + t
    ensures x == y && r == t
  {
    var a, b := x + "_" + r, y + "_" + t;
    LineAt(x, r);
    LineAt(y, t);
    assert a[|x|] == '_' && b[|y|] == '_';
    assert |x| == |y|;
    assert x == a[..|x|] && y == b[..|y|];
    assert r == a[|x| + 1..] && t == b[|y| + 1..];
  }

  lemma NumberTextUnique(m: Number, n: Number)
    requires NumberText(m) == NumberText(n)
    ensures m == n
    ensures NoLine(NumberText(m))
  {
    DecValue(m.id);
    DecValue(n.id);
    assert IsDigit(Dec(m.id)[0]) && IsDigit(Dec(n.id)[0]);
    assert m.ByReport? ==> NumberText(m)[0] == 'r' && NumberText(m)[1..] == Dec(m.id);
    assert n.ByReport? ==> NumberText(n)[0] == 'r' && NumberText(n)[1..] == Dec(n.id);
    assert m.ByOrdinal? ==> NumberText(m)[0] == 'f' && NumberText(m)[2..] == Dec(m.id);
    assert n.ByOrdinal? ==> NumberText(n)[0] == 'f' && NumberText(n)[2..] == Dec(n.id);
  }

  lemma NumberTextPlain(n: Number)
    ensures NoLine(NumberText(n))
  {
    DecValue(n.id);
  }

  lemma PrefixUnique(u: nat, v: nat)
    ensures NoLine(Prefix(u))
    ensures Prefix(u) == Prefix(v) ==> u == v
  {
    PaddedValue(u);
    PaddedValue(v);
    assert Prefix(u)[1..] == Padded(u) && Prefix(v)[1..] == Padded(v);
  }

  lemma NumberedUnique(u: nat, m: Number, s: string, v: nat, n: Number, t: string, kind: string, end: string)
    requires NumberedName(u, kind, m, s) + end == NumberedName(v, kind, n, t) + end
    ensures u == v && m == n
  {
    var a, b := NumberedName(u, kind, m, s), NumberedName(v, kind, n, t);
    assert a == (a + end)[..|a + end| - |end|] && b == (b + end)[..|b + end| - |end|];
    PrefixUnique(u, v);
    PrefixUnique(v, u);
    var x, y := NumberText(m) + "_" + ("_" + s), NumberText(n) + "_" + ("_" + t);
    TokenUnique(Prefix(u), "_" + kind + "_" + x, Prefix(v), "_" + kind + "_" + y);
    assert x == ("_" + kind + "_" + x)[|kind| + 2..] && y == ("_" + kind + "_" + y)[|kind| + 2..];
    NumberTextPlain(m);
    NumberTextPlain(n);
    TokenUnique(NumberText(m), "_" + s, NumberText(n), "_" + t);
    NumberTextUnique(m, n);
  }

  lemma DigitsFrom(x: string, a: nat)
    ensures (x + "s" + Dec(a))[|x|] == 's'
    ensures forall k | |x| < k < |x + "s" + Dec(a)| :: IsDigit((x + "s" + Dec(a))[k])
  {
    DecValue(a);
  }

  /** Behind the last letter two equal texts end in the same number. */
  lemma TailUnique(x: string, a: nat, y: string, b: nat)
    requires x + "s" + Dec(a) == y + "s" + Dec(b)
    ensures a == b
  {
    DecValue(a);
    DecValue(b);
    var p, q := x + "s" + Dec(a), y + "s" + Dec(b);
    DigitsFrom(x, a);
    DigitsFrom(y, b);
    assert p[|x|] == 's' && q[|y|] == 's';
    assert |x| == |y|;
    assert Dec(a) == p[|x| + 1..] && Dec(b) == q[|y| + 1..];
  }

  /** Every session name ends in the number of its session. */
  lemma SessionEnds(user: nat, upload: nat, kind: string, slug: string, session: nat)
    ensures SessionName(user, upload, kind, slug, session)
            == (Prefix(user) + "__" + kind + "_" + Dec(upload) + "__" + slug + "__") + "s" + Dec(session)
  {
    assert "__s" == "__" + "s";
  }

  function ConversationHead(e: Entry): string
    requires e.Conversation?
  {
    match e.upload
    case None => Prefix(e.user) + "__conversation_"
    case Some(u) => Prefix(e.user) + "__" + "conversation" + "_" + Dec(u) + "__" + e.slug + "__"
  }

  lemma ConversationEnds(e: Entry)
    requires e.Conversation?
    ensures ConversationName(e.user, e.session, e.upload, e.slug) == ConversationHead(e) + "s" + Dec(e.session)
  {
    if e.upload.Some? {
      SessionEnds(e.user, e.upload.value, "conversation", e.slug, e.session);
    } else {
      assert "__conversation_s" == "__conversation_" + "s";
    }
  }

  lemma Stripped(a: string, b: string, head: string, end: string)
    requires head + a + end == head + b + end
    ensures a == b && a + end == b + end
  {
    assert a == (head + a + end)[|head|..|head + a + end| - |end|];
    assert b == (head + b + end)[|head|..|head + b + end| - |end|];
  }

  lemma SimulationUnique(u: nat, a: nat, s: string, m: nat, v: nat, b: nat, t: string, n: nat, end: string)
    requires "simulations/" + SessionName(u, a, "simsession", s, m) + end == "simulations/" + SessionName(v, b, "simsession", t, n) + end
    ensures m == n
  {
    var x, y := SessionName(u, a, "simsession", s, m), SessionName(v, b, "simsession", t, n);
    Stripped(x, y, "simulations/", end);
    SessionEnds(u, a, "simsession", s, m);
    SessionEnds(v, b, "simsession", t, n);
    TailUnique(Prefix(u) + "__" + "simsession" + "_" + Dec(a) + "__" + s + "__", m,
               Prefix(v) + "__" + "simsession" + "_" + Dec(b) + "__" + t + "__", n);
  }

  lemma ConversationUnique(e: Entry, f: Entry)
    requires e.Conversation? && f.Conversation? && Path(e) == Path(f)
    ensures e.session == f.session
  {
    var x, y := ConversationName(e.user, e.session, e.upload, e.slug), ConversationName(f.user, f.session, f.upload, f.slug);
    Stripped(x, y, "conversations/", ".jsonl");
    ConversationEnds(e);
    ConversationEnds(f);
    TailUnique(ConversationHead(e), e.session, ConversationHead(f), f.session);
  }

  lemma ReportUnique(e: Entry, f: Entry)
    requires e.Report? && f.Report? && Path(e) == Path(f)
    ensures SameItem(e, f)
  {
    var x, y := NumberedName(e.user, "report", e.number, e.slug), NumberedName(f.user, "report", f.number, f.slug);
    Stripped(x, y, "reports/", ".md");
    NumberedUnique(e.user, e.number, e.slug, f.user, f.number, f.slug, "report", ".md");
  }

  lemma PlanUnique(e: Entry, f: Entry)
    requires e.Plan? && f.Plan? && Path(e) == Path(f)
    ensures SameItem(e, f)
  {
    var x, y := NumberedName(e.user, "lessonplan", e.number, e.slug), NumberedName(f.user, "lessonplan", f.number, f.slug);
    assert "lessonplans/" + x + "" == "lessonplans/" + x && "lessonplans/" + y + "" == "lessonplans/" + y;
    Stripped(x, y, "lessonplans/", "");
    assert x + "" == x && y + "" == y;
    NumberedUnique(e.user, e.number, e.slug, f.user, f.number, f.slug, "lessonplan", "");
  }

  function Folder(e: Entry): char {
    match e
    case Report(_, _, _) => 'r'
    case Plan(_, _, _) => 'l'
    case Conversation(_, _, _, _) => 'c'
    case SimulationLog(_, _, _, _) => 's'
    case SimulationReport(_, _, _, _) => 's'
  }

  lemma PathFolder(e: Entry)
    ensures Path(e) != "" && Path(e)[0] == Folder(e)
    ensures e.SimulationLog? ==> Path(e)[|Path(e)| - 1] == 'l'
    ensures e.SimulationReport? ==> Path(e)[|Path(e)| - 1] == 'd'
  {
  }

  /** Whatever the original names, two entries with one path are the same item. */
  lemma PathUnique(e: Entry, f: Entry)
    requires Path(e) == Path(f)
    ensures SameItem(e, f)
  {
    PathFolder(e);
    PathFolder(f);
    match e
    case Report(_, _, _) => ReportUnique(e, f);
    case Plan(_, _, _) => PlanUnique(e, f);
    case Conversation(_, _, _, _) => ConversationUnique(e, f);
    case SimulationLog(_, _, _, _) =>
      SimulationUnique(e.user, e.lesson, e.slug, e.session, f.user, f.lesson, f.slug, f.session, ".jsonl");
    case SimulationReport(_, _, _, _) =>
      SimulationUnique(e.user, e.lesson, e.slug, e.session, f.user, f.lesson, f.slug, f.session, ".md");
  }
}
