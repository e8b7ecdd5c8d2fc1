/** The LVGL stand-in the UI unit tests link against: widgets looked up
    (or created) by name, textareas, string subjects with caller-owned
    character buffers, events, a millisecond tick and timers.

    Pointers are handles: a widget or timer is the value of a counter that
    starts at 1 and is never reset, 0 is the null pointer, and a subject is
    whatever handle the caller passes. Callbacks are identities, and calling
    one is recorded in `fired`; what it does is the test's own code. */
module LvglMock {
  import opened Common

  const U32: nat := 0x1_0000_0000

  /** A `const char*` argument: its characters up to the terminating NUL. */
  type CString = s: string | forall i :: 0 <= i < |s| ==> s[i] != '\0'

  datatype EventCode = Clicked | ValueChanged | Focused | Defocused | Ready

  datatype Widget = Widget(name: string, textValue: string, callbacks: seq<nat>, userData: nat)

  /** A string subject: its registered name, its value, and the caller's
      buffer (None for a null pointer) with its size. */
  datatype Subject = Subject(name: string, value: string, buffer: Option<array<char>>, bufferSize: nat)

  datatype Timer = Timer(callback: Option<nat>, period: nat, userData: nat)

  /** A callback call: an event callback with the event it receives, or a
      timer callback with its timer. */
  datatype Invocation =
    | EventCall(cb: nat, target: nat, code: EventCode, userData: nat, param: nat)
    | TimerCall(cb: nat, timer: nat)

  // ---------------------------------------------------------------------
  // C strings in character buffers
  // ---------------------------------------------------------------------

  /** std::string(buffer): the characters before the first NUL. */
  function CStr(s: seq<char>): (r: string)
    ensures |r| <= |s| && r == s[..|r|]
    ensures forall j :: 0 <= j < |r| ==> r[j] != '\0'
    ensures |r| < |s| ==> s[|r|] == '\0'
  {
    if s == [] || s[0] == '\0' then [] else [s[0]] + CStr(s[1..])
  }

  /** The character strncpy leaves at position i when copying `src`. */
  function CopiedChar(src: CString, i: nat): char
  {
    if i < |src| then src[i] else '\0'
  }

  /** A buffer of `size` characters holds `v` the way the mock writes it:
      strncpy of size-1 characters, then a NUL in the last place. */
  predicate HoldsValue(buf: seq<char>, v: CString, size: nat)
    requires 1 <= size <= |buf|
  {
    (forall i :: 0 <= i < size - 1 ==> buf[i] == CopiedChar(v, i)) && buf[size - 1] == '\0'
  }

  /** Reading a string up to its NUL: a prefix free of NULs that is
      followed by one is the whole string. */
  lemma {:induction false} CStrIs(s: seq<char>, k: nat)
    requires k < |s| && s[k] == '\0'
    requires forall j :: 0 <= j < k ==> s[j] != '\0'
    ensures CStr(s) == s[..k]
  {
    if k > 0 {
      CStrIs(s[1..], k - 1);
    }
  }

  /** A buffer written by the mock reads back as the value cut to at most
      size-1 characters; a value shorter than the buffer reads back whole. */
  lemma ReadBack(buf: seq<char>, v: CString, size: nat)
    requires 1 <= size <= |buf| && HoldsValue(buf, v, size)
    ensures CStr(buf) == v[..if |v| < size - 1 then |v| else size - 1]
    ensures |CStr(buf)| <= size - 1
    ensures |v| < size ==> CStr(buf) == v
  {
    var k := if |v| < size - 1 then |v| else size - 1;
    assert buf[k] == '\0';
    CStrIs(buf, k);
  }

  /** strncpy(dst, src, n): the first n characters become src padded with
      NULs; the rest of the buffer is untouched. */
  method StrNCopy(dst: array<char>, src: CString, n: nat)
    requires n <= dst.Length
    modifies dst
    ensures forall i :: 0 <= i < n ==> dst[i] == CopiedChar(src, i)
    ensures forall i :: n <= i < dst.Length ==> dst[i] == old(dst[i])
  {
    for i := 0 to n
      invariant forall j :: 0 <= j < i ==> dst[j] == CopiedChar(src, j)
      invariant forall j :: i <= j < dst.Length ==> dst[j] == old(dst[j])
    {
      dst[i] := if i < |src| then src[i] else '\0';
    }
  }

  /** The two-step buffer write the mock performs for a subject. */
  method CopyToBuffer(buf: array<char>, v: CString, size: nat)
    requires 1 <= size <= buf.Length
    modifies buf
    ensures HoldsValue(buf[..], v, size)
    ensures forall i :: size <= i < buf.Length ==> buf[i] == old(buf[i])
  {
    StrNCopy(buf, v, size - 1);
    buf[size - 1] := '\0';
  }

  // ---------------------------------------------------------------------
  // Handles in ascending order
  // ---------------------------------------------------------------------

  /** Every non-empty set of handles has a smallest one. */
  lemma {:induction false} MinOf(s: set<nat>) returns (m: nat)
    requires s != {}
    ensures m in s && forall x :: x in s ==> m <= x
    decreases |s|
  {
    var x :| x in s;
    var rest := s - {x};
    if rest == {} {
      m := x;
      forall y | y in s
        ensures m <= y
      {
        assert y !in rest;
      }
    } else {
      var r := MinOf(rest);
      m := if x < r then x else r;
      forall y | y in s
        ensures m <= y
      {
        if y != x {
          assert y in rest;
        }
      }
    }
  }

  ghost function LeastHandle(s: set<nat>): (m: nat)
    requires s != {}
    ensures m in s && forall x :: x in s ==> m <= x
  {
    assert exists m :: m in s && forall x :: x in s ==> m <= x by {
      var w := MinOf(s);
    }
    var m :| m in s && forall x :: x in s ==> m <= x;
    m
  }

  /** The smallest handle of a set: the next one an ascending walk visits. */
  method PickLeast(s: set<nat>) returns (m: nat)
    requires s != {}
    ensures m in s && m == LeastHandle(s)
  {
    ghost var w := MinOf(s);
    m :| m in s && forall x :: x in s ==> m <= x;
  }

  /** The handles of the widgets with a given name. */
  function Named(w: map<nat, Widget>, name: string): set<nat>
  {
    set h | h in w && w[h].name == name
  }

  /** The widget a search by name finds: the one with the smallest handle. */
  ghost function FirstNamed(w: map<nat, Widget>, name: string): (r: Option<nat>)
    ensures r.None? <==> forall h :: h in w ==> w[h].name != name
    ensures r.Some? ==> r.value in w && w[r.value].name == name
    ensures r.Some? ==> forall h :: h in w && w[h].name == name ==> r.value <= h
  {
    var s := Named(w, name);
    assert forall h :: h in w && w[h].name == name ==> h in s;
    if s == {} then None else Some(LeastHandle(s))
  }

  /** What get_textarea_value answers for a name. */
  ghost function TextareaValue(w: map<nat, Widget>, name: string): string
  {
    var h := FirstNamed(w, name);
    if h.Some? then w[h.value].textValue else ""
  }

  /** Changing a widget's text keeps every name search's answer. */
  lemma RetextKeepsNames(w: map<nat, Widget>, h: nat, text: string, name: string)
    requires h in w
    ensures FirstNamed(w[h := w[h].(textValue := text)], name) == FirstNamed(w, name)
  {
    assert Named(w[h := w[h].(textValue := text)], name) == Named(w, name);
  }

  /** The timer callbacks process_timers makes, timers in ascending handle
      order, skipping those without a callback. */
  ghost function TimerCalls(tm: map<nat, Timer>, s: set<nat>): seq<Invocation>
    requires s <= tm.Keys
    decreases |s|
  {
    if s == {} then []
    else
      var t := LeastHandle(s);
      (if tm[t].callback.Some? then [TimerCall(tm[t].callback.value, t)] else []) + TimerCalls(tm, s - {t})
  }

  /** The first step of process_timers: the smallest handle's call, then
      the rest. */
  lemma TimerCallsStep(tm: map<nat, Timer>, s: set<nat>)
    requires s <= tm.Keys && s != {}
    ensures var t := LeastHandle(s);
            TimerCalls(tm, s) == (if tm[t].callback.Some? then [TimerCall(tm[t].callback.value, t)] else []) + TimerCalls(tm, s - {t})
  {
  }

  /** Every call is a live timer's own callback. */
  lemma {:induction false} TimerCallsSound(tm: map<nat, Timer>, s: set<nat>)
    requires s <= tm.Keys
    ensures var r := TimerCalls(tm, s);
            forall k :: 0 <= k < |r| ==> r[k].TimerCall? && r[k].timer in s && tm[r[k].timer].callback == Some(r[k].cb)
    decreases |s|
  {
    if s != {} {
      var t := LeastHandle(s);
      var rest := s - {t};
      TimerCallsSound(tm, rest);
      TimerCallsStep(tm, s);
      var head: seq<Invocation> := if tm[t].callback.Some? then [TimerCall(tm[t].callback.value, t)] else [];
      var r := head + TimerCalls(tm, rest);
      forall k | 0 <= k < |r|
        ensures r[k].TimerCall? && r[k].timer in s && tm[r[k].timer].callback == Some(r[k].cb)
      {
        if k >= |head| {
          assert r[k] == TimerCalls(tm, rest)[k - |head|];
        } else {
          assert r[k] == TimerCall(tm[t].callback.value, t);
        }
      }
    }
  }

  /** The timers are called in strictly ascending handle order, so none
      twice. */
  lemma {:induction false} TimerCallsAscending(tm: map<nat, Timer>, s: set<nat>)
    requires s <= tm.Keys
    ensures var r := TimerCalls(tm, s);
            forall k :: 0 <= k < |r| ==> r[k].TimerCall?
    ensures var r := TimerCalls(tm, s);
            forall k, l :: 0 <= k < l < |r| ==> r[k].timer < r[l].timer
    decreases |s|
  {
    TimerCallsSound(tm, s);
    if s != {} {
      var t := LeastHandle(s);
      var rest := s - {t};
      TimerCallsAscending(tm, rest);
      TimerCallsSound(tm, rest);
      TimerCallsStep(tm, s);
      var head: seq<Invocation> := if tm[t].callback.Some? then [TimerCall(tm[t].callback.value, t)] else [];
      var r := head + TimerCalls(tm, rest);
      forall k, l | 0 <= k < l < |r|
        ensures r[k].timer < r[l].timer
      {
        assert r[l] == TimerCalls(tm, rest)[l - |head|];
        if k >= |head| {
          assert r[k] == TimerCalls(tm, rest)[k - |head|];
        }
      }
    }
  }

  /** Every timer with a callback is called. */
  lemma {:induction false} TimerCallsComplete(tm: map<nat, Timer>, s: set<nat>)
    requires s <= tm.Keys
    ensures var r := TimerCalls(tm, s);
            forall t :: t in s && tm[t].callback.Some? ==> exists k :: 0 <= k < |r| && r[k] == TimerCall(tm[t].callback.value, t)
    decreases |s|
  {
    if s != {} {
      var t := LeastHandle(s);
      var rest := s - {t};
      TimerCallsComplete(tm, rest);
      TimerCallsStep(tm, s);
      var head: seq<Invocation> := if tm[t].callback.Some? then [TimerCall(tm[t].callback.value, t)] else [];
      var r := head + TimerCalls(tm, rest);
      forall u | u in s && tm[u].callback.Some?
        ensures exists k :: 0 <= k < |r| && r[k] == TimerCall(tm[u].callback.value, u)
      {
        if u == t {
          assert r[0] == TimerCall(tm[u].callback.value, u);
        } else {
          assert u in rest;
          var k :| 0 <= k < |TimerCalls(tm, rest)| && TimerCalls(tm, rest)[k] == TimerCall(tm[u].callback.value, u);
          assert r[|head| + k] == TimerCalls(tm, rest)[k];
        }
      }
    }
  }

  /** A deleted timer is never called back. */
  lemma DeletedTimerNotCalled(tm: map<nat, Timer>, t: nat)
    ensures var r := TimerCalls(tm - {t}, (tm - {t}).Keys);
            forall k :: 0 <= k < |r| ==> r[k].TimerCall? && r[k].timer != t
  {
    TimerCallsSound(tm - {t}, (tm - {t}).Keys);
  }

  /** The calls event delivery makes: each registered callback in order,
      all with the same event. */
  function EventCalls(cbs: seq<nat>, target: nat, code: EventCode, userData: nat, param: nat): (r: seq<Invocation>)
    ensures |r| == |cbs|
    ensures forall k :: 0 <= k < |r| ==> r[k] == EventCall(cbs[k], target, code, userData, param)
  {
    if |cbs| == 0 then []
    else EventCalls(cbs[..|cbs| - 1], target, code, userData, param) + [EventCall(cbs[|cbs| - 1], target, code, userData, param)]
  }

  /** uint32 addition. */
  function AddU32(t: nat, ms: nat): (r: nat)
    ensures r < U32
    ensures t + ms < U32 ==> r == t + ms
    ensures r == (t + ms) % U32
  {
    (t + ms) % U32
  }

  /** Advancing twice is advancing by the sum, modulo 2^32. */
  lemma AdvanceTwice(t: nat, a: nat, b: nat)
    ensures AddU32(AddU32(t, a), b) == AddU32(t, a + b)
  {
    var q := (t + a) / U32;
    assert t + a == q * U32 + (t + a) % U32;
    assert t + a + b == q * U32 + ((t + a) % U32 + b);
  }

  // ---------------------------------------------------------------------
  // The mock
  // ---------------------------------------------------------------------

  class Lvgl {
    var widgets: map<nat, Widget>
    var subjects: map<nat, Subject>
    var registry: map<string, nat>
    var timers: map<nat, Timer>
    var activeScreen: Option<nat>
    var tick: nat
    var widgetCounter: nat
    var timerCounter: nat
    var fired: seq<Invocation>

    /** Handles are below their counter and never 0, the tick is a uint32,
        and the active screen is a widget. */
    predicate Valid()
      reads this
    {
      1 <= widgetCounter && 1 <= timerCounter && tick < U32
      && (forall h :: h in widgets ==> 1 <= h < widgetCounter)
      && (forall t :: t in timers ==> 1 <= t < timerCounter)
      && (activeScreen.Some? ==> activeScreen.value in widgets)
    }

    twostate predicate WidgetsKept()
      reads this
    {
      widgets == old(widgets) && widgetCounter == old(widgetCounter) && activeScreen == old(activeScreen)
    }

    twostate predicate SubjectsKept()
      reads this
    {
      subjects == old(subjects) && registry == old(registry)
    }

    twostate predicate TimersKept()
      reads this
    {
      timers == old(timers) && timerCounter == old(timerCounter) && tick == old(tick)
    }

    /** The program's initial global state. */
    constructor()
      ensures Valid() && widgets == map[] && subjects == map[] && registry == map[] && timers == map[]
      ensures activeScreen.None? && tick == 0 && widgetCounter == 1 && timerCounter == 1 && fired == []
    {
      widgets, subjects, registry, timers := map[], map[], map[], map[];
      activeScreen, tick := None, 0;
      widgetCounter, timerCounter := 1, 1;
      fired := [];
    }

    /** reset: every map emptied, no active screen, tick 0; the handle
        counters keep counting. */
    method Reset()
      requires Valid()
      modifies this
      ensures Valid() && widgets == map[] && subjects == map[] && registry == map[] && timers == map[]
      ensures activeScreen.None? && tick == 0
      ensures widgetCounter == old(widgetCounter) && timerCounter == old(timerCounter) && fired == old(fired)
    {
      widgets, subjects, registry, timers := map[], map[], map[], map[];
      activeScreen := None;
      tick := 0;
    }

    /** Adds a widget under a fresh handle, which is returned. */
    method NewWidget(w: Widget) returns (h: nat)
      requires Valid()
      modifies this
      ensures Valid() && h == old(widgetCounter) && h !in old(widgets) && h != 0
      ensures widgets == old(widgets)[h := w] && widgetCounter == old(widgetCounter) + 1
      ensures activeScreen == old(activeScreen) && SubjectsKept() && TimersKept() && fired == old(fired)
    {
      h := widgetCounter;
      widgets := widgets[h := w];
      widgetCounter := widgetCounter + 1;
    }

    /** init: a reset, then a single "screen" widget as the active screen. */
    method Init()
      requires Valid()
      modifies this
      ensures Valid() && activeScreen == Some(old(widgetCounter))
      ensures widgets == map[old(widgetCounter) := Widget("screen", "", [], 0)]
      ensures widgetCounter == old(widgetCounter) + 1 && timerCounter == old(timerCounter)
      ensures subjects == map[] && registry == map[] && timers == map[] && tick == 0 && fired == old(fired)
    {
      Reset();
      var screen := NewWidget(Widget("screen", "", [], 0));
      activeScreen := Some(screen);
    }

    /** find_widget_by_name: the first widget with that name, visiting
        handles in ascending order; None when there is none. */
    method FindWidgetByName(name: string) returns (r: Option<nat>)
      ensures r == FirstNamed(widgets, name)
    {
      var todo := widgets.Keys;
      ghost var bound: int := -1;
      while todo != {}
        invariant todo <= widgets.Keys
        invariant forall h :: h in widgets && h !in todo ==> widgets[h].name != name && h <= bound
        invariant forall j :: j in todo ==> bound < j
        decreases |todo|
      {
        var h := PickLeast(todo);
        if widgets[h].name == name {
          ghost var first := FirstNamed(widgets, name);
          assert first.Some? && first.value in todo;
          return Some(h);
        }
        todo := todo - {h};
        bound := h;
      }
      return None;
    }

    /** lv_obj_find_by_name: an existing widget with that name, or a new
        empty one; either way the next search for the name finds it. */
    method ObjFindByName(name: CString) returns (obj: nat)
      requires Valid()
      modifies this
      ensures Valid() && obj in widgets && widgets[obj].name == name && FirstNamed(widgets, name) == Some(obj)
      ensures old(FirstNamed(widgets, name)).Some? ==>
                obj == old(FirstNamed(widgets, name)).value && widgets == old(widgets) && widgetCounter == old(widgetCounter)
      ensures old(FirstNamed(widgets, name)).None? ==>
                obj == old(widgetCounter) && widgets == old(widgets)[obj := Widget(name, "", [], 0)]
                && widgetCounter == old(widgetCounter) + 1
      ensures activeScreen == old(activeScreen) && SubjectsKept() && TimersKept() && fired == old(fired)
    {
      var found := FindWidgetByName(name);
      if found.Some? {
        obj := found.value;
      } else {
        obj := NewWidget(Widget(name, "", [], 0));
        assert Named(widgets, name) == {obj};
      }
    }

    /** lv_xml_create: a new widget named after the component, carrying the
        user data. */
    method XmlCreate(parent: nat, component: CString, userData: nat) returns (obj: nat)
      requires Valid()
      modifies this
      ensures Valid() && obj == old(widgetCounter) && obj !in old(widgets) && obj != 0
      ensures widgets == old(widgets)[obj := Widget(component, "", [], userData)]
      ensures widgetCounter == old(widgetCounter) + 1
      ensures activeScreen == old(activeScreen) && SubjectsKept() && TimersKept() && fired == old(fired)
    {
      obj := NewWidget(Widget(component, "", [], userData));
    }

    function ScrAct(): Option<nat>
      reads this
    {
      activeScreen
    }

    /** lv_textarea_get_text: the widget's text, "" for an unknown handle. */
    function TextareaGetText(obj: nat): (r: string)
      reads this
      ensures obj !in widgets ==> r == ""
    {
      if obj in widgets then widgets[obj].textValue else ""
    }

    /** lv_textarea_set_text: sets the widget's text; an unknown handle
        changes nothing. */
    method TextareaSetText(obj: nat, text: CString)
      requires Valid()
      modifies this
      ensures Valid() && TextareaGetText(obj) == (if obj in old(widgets) then text else "")
      ensures widgets == if obj in old(widgets) then old(widgets)[obj := old(widgets)[obj].(textValue := text)] else old(widgets)
      ensures widgetCounter == old(widgetCounter) && activeScreen == old(activeScreen)
      ensures SubjectsKept() && TimersKept() && fired == old(fired)
    {
      if obj in widgets {
        widgets := widgets[obj := widgets[obj].(textValue := text)];
      }
    }

    /** get_textarea_value: the text of the first widget with that name, ""
        when there is none. */
    method GetTextareaValue(name: string) returns (v: string)
      ensures v == TextareaValue(widgets, name)
      ensures FirstNamed(widgets, name).None? ==> v == ""
    {
      var found := FindWidgetByName(name);
      v := if found.Some? then widgets[found.value].textValue else "";
    }

    /** set_textarea_value: sets the text of the first widget with that
        name, or creates a widget holding it; the value then reads back. */
    method SetTextareaValue(name: string, value: string)
      requires Valid()
      modifies this
      ensures Valid() && TextareaValue(widgets, name) == value
      ensures old(FirstNamed(widgets, name)).Some? ==>
                var h := old(FirstNamed(widgets, name)).value;
                widgets == old(widgets)[h := old(widgets)[h].(textValue := value)] && widgetCounter == old(widgetCounter)
      ensures old(FirstNamed(widgets, name)).None? ==>
                widgets == old(widgets)[old(widgetCounter) := Widget(name, value, [], 0)]
                && widgetCounter == old(widgetCounter) + 1
      ensures activeScreen == old(activeScreen) && SubjectsKept() && TimersKept() && fired == old(fired)
    {
      var found := FindWidgetByName(name);
      if found.Some? {
        var h := found.value;
        RetextKeepsNames(widgets, h, value, name);
        widgets := widgets[h := widgets[h].(textValue := value)];
      } else {
        var h := NewWidget(Widget(name, value, [], 0));
        assert Named(widgets, name) == {h};
      }
    }

    /** lv_subject_init_string: (re)creates the subject, unnamed, with the
        initial value (or "") and the caller's buffer, which receives the
        value when both are given. */
    method SubjectInitString(subject: nat, buffer: Option<array<char>>, size: nat, initValue: Option<CString>)
      requires buffer.Some? && initValue.Some? ==> 1 <= size <= buffer.value.Length
      modifies this, if buffer.Some? && initValue.Some? then {buffer.value} else {}
      ensures subjects == old(subjects)[subject := Subject("", if initValue.Some? then initValue.value else "", buffer, size)]
      ensures buffer.Some? && initValue.Some? ==>
                HoldsValue(buffer.value[..], initValue.value, size)
                && forall i :: size <= i < buffer.value.Length ==> buffer.value[i] == old(buffer.value[i])
      ensures registry == old(registry) && WidgetsKept() && TimersKept() && fired == old(fired)
    {
      var value := if initValue.Some? then initValue.value else "";
      if buffer.Some? && initValue.Some? {
        CopyToBuffer(buffer.value, initValue.value, size);
      }
      subjects := subjects[subject := Subject("", value, buffer, size)];
    }

    /** lv_xml_register_subject: the name now resolves to the subject, and a
        known subject takes the name. */
    method XmlRegisterSubject(name: CString, subject: nat)
      modifies this
      ensures registry == old(registry)[name := subject]
      ensures subjects == if subject in old(subjects) then old(subjects)[subject := old(subjects)[subject].(name := name)] else old(subjects)
      ensures WidgetsKept() && TimersKept() && fired == old(fired)
    {
      registry := registry[name := subject];
      if subject in subjects {
        subjects := subjects[subject := subjects[subject].(name := name)];
      }
    }

    /** lv_subject_copy_string: a known subject takes the full value, and
        its buffer (if any) the value cut to fit; an unknown subject
        changes nothing. */
    method SubjectCopyString(subject: nat, value: CString)
      requires subject in subjects && subjects[subject].buffer.Some? ==>
                 1 <= subjects[subject].bufferSize <= subjects[subject].buffer.value.Length
      modifies this, if subject in subjects && subjects[subject].buffer.Some? then {subjects[subject].buffer.value} else {}
      ensures subjects == if subject in old(subjects) then old(subjects)[subject := old(subjects)[subject].(value := value)] else old(subjects)
      ensures subject in subjects && subjects[subject].buffer.Some? ==>
                var buf := subjects[subject].buffer.value;
                var size := subjects[subject].bufferSize;
                HoldsValue(buf[..], value, size) && forall i :: size <= i < buf.Length ==> buf[i] == old(buf[i])
      ensures registry == old(registry) && WidgetsKept() && TimersKept() && fired == old(fired)
    {
      if subject in subjects {
        var s := subjects[subject];
        if s.buffer.Some? {
          CopyToBuffer(s.buffer.value, value, s.bufferSize);
        }
        subjects := subjects[subject := s.(value := value)];
      }
    }

    /** get_subject_value: the value of the subject registered under the
        name, "" when there is none. */
    function GetSubjectValue(name: string): (r: string)
      reads this
      ensures name !in registry ==> r == ""
    {
      if name in registry && registry[name] in subjects then subjects[registry[name]].value else ""
    }

    /** lv_obj_add_event_cb: appends the callback and replaces the widget's
        user data; an unknown handle changes nothing. */
    method AddEventCb(obj: nat, cb: nat, filter: EventCode, userData: nat)
      requires Valid()
      modifies this
      ensures Valid()
      ensures widgets == if obj in old(widgets) then old(widgets)[obj := old(widgets)[obj].(callbacks := old(widgets)[obj].callbacks + [cb], userData := userData)] else old(widgets)
      ensures widgetCounter == old(widgetCounter) && activeScreen == old(activeScreen)
      ensures SubjectsKept() && TimersKept() && fired == old(fired)
    {
      if obj in widgets {
        var w := widgets[obj];
        widgets := widgets[obj := w.(callbacks := w.callbacks + [cb], userData := userData)];
      }
    }

    /** Delivers one event to every callback of a widget, in order. */
    method Deliver(obj: nat, code: EventCode, param: nat)
      requires obj in widgets
      modifies this
      ensures fired == old(fired) + EventCalls(old(widgets)[obj].callbacks, obj, code, old(widgets)[obj].userData, param)
      ensures WidgetsKept() && SubjectsKept() && TimersKept()
    {
      var w := widgets[obj];
      for i := 0 to |w.callbacks|
        invariant fired == old(fired) + EventCalls(w.callbacks[..i], obj, code, w.userData, param)
        invariant WidgetsKept() && SubjectsKept() && TimersKept()
      {
        assert w.callbacks[..i + 1][..i] == w.callbacks[..i];
        fired := fired + [EventCall(w.callbacks[i], obj, code, w.userData, param)];
      }
      assert w.callbacks[..|w.callbacks|] == w.callbacks;
    }

    /** lv_event_send: all callbacks of a known widget receive the event. */
    method EventSend(obj: nat, code: EventCode, param: nat)
      modifies this
      ensures fired == old(fired) + if obj in widgets then EventCalls(widgets[obj].callbacks, obj, code, widgets[obj].userData, param) else []
      ensures WidgetsKept() && SubjectsKept() && TimersKept()
    {
      if obj in widgets {
        Deliver(obj, code, param);
      }
    }

    /** trigger_button_click: a click event, with no parameter, to the first
        widget with that name; nothing when there is none. */
    method TriggerButtonClick(name: string)
      modifies this
      ensures var h := old(FirstNamed(widgets, name));
              fired == old(fired) + if h.Some? then EventCalls(old(widgets)[h.value].callbacks, h.value, Clicked, old(widgets)[h.value].userData, 0) else []
      ensures WidgetsKept() && SubjectsKept() && TimersKept()
    {
      var found := FindWidgetByName(name);
      if found.Some? {
        Deliver(found.value, Clicked, 0);
      }
    }

    function TickGet(): nat
      reads this
    {
      tick
    }

    /** advance_time: the tick moves on by ms, as uint32 arithmetic. */
    method AdvanceTime(ms: nat)
      requires Valid() && ms < U32
      modifies this
      ensures Valid() && tick == AddU32(old(tick), ms)
      ensures WidgetsKept() && SubjectsKept() && timers == old(timers) && timerCounter == old(timerCounter) && fired == old(fired)
    {
      tick := (tick + ms) % U32;
    }

    /** lv_timer_create: a new timer under a fresh handle. */
    method TimerCreate(cb: Option<nat>, period: nat, userData: nat) returns (t: nat)
      requires Valid() && period < U32
      modifies this
      ensures Valid() && t == old(timerCounter) && t !in old(timers) && t != 0
      ensures timers == old(timers)[t := Timer(cb, period, userData)] && timerCounter == old(timerCounter) + 1
      ensures tick == old(tick) && WidgetsKept() && SubjectsKept() && fired == old(fired)
    {
      t := timerCounter;
      timers := timers[t := Timer(cb, period, userData)];
      timerCounter := timerCounter + 1;
    }

    /** lv_timer_del: the timer is gone. */
    method TimerDel(t: nat)
      requires Valid()
      modifies this
      ensures Valid() && timers == old(timers) - {t} && timerCounter == old(timerCounter)
      ensures tick == old(tick) && WidgetsKept() && SubjectsKept() && fired == old(fired)
    {
      timers := timers - {t};
    }

    /** process_timers: one call of every live timer's callback, visiting
        handles in ascending order. */
    method ProcessTimers()
      modifies this
      ensures fired == old(fired) + TimerCalls(timers, timers.Keys)
      ensures WidgetsKept() && SubjectsKept() && TimersKept()
    {
      var todo := timers.Keys;
      while todo != {}
        invariant todo <= timers.Keys
        invariant fired + TimerCalls(timers, todo) == old(fired) + TimerCalls(timers, timers.Keys)
        invariant WidgetsKept() && SubjectsKept() && TimersKept()
        decreases |todo|
      {
        var t := PickLeast(todo);
        TimerCallsStep(timers, todo);
        if timers[t].callback.Some? {
          fired := fired + [TimerCall(timers[t].callback.value, t)];
        }
        todo := todo - {t};
      }
    }
  }
}
