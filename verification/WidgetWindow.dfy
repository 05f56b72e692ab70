/** The widget fields of a window and the functions that change them, in the form of `lua/tui_lua.c`.
    Each method is proved against the function of module Widgets that says what it does to the fields and to
    the registry.
    Who owns which reference is proved about those functions. */
module WidgetWindow {
  import opened Common
  import opened Widgets

  class Window {
    var tui: bool
    var widgetMode: Mode
    var widgetClosure: Option<int>
    var widgetState: Option<int>
    var verify: Option<int>
    var filter: Option<int>
    var tuiState: Option<int>
    var registry: Registry

    function View(): World
      reads this
    {
      World(Wnd(tui, widgetMode, widgetClosure, widgetState, verify, filter, tuiState), registry)
    }

    constructor ()
      ensures View() == OPENED_WINDOW
    {
      tui, widgetMode, widgetClosure, widgetState := true, Normal, None, None;
      verify, filter, tuiState := None, None, Some(0);
      registry := Registry({0}, {}, {}, 1, false);
    }

    method TakeRef() returns (ref: Option<int>)
      modifies `registry
      ensures ref == Some(old(registry).next) && registry == Ref(old(registry))
    {
      ref := Some(registry.next);
      registry := Ref(registry);
    }

    method DropRef(ref: Option<int>) returns (none: Option<int>)
      modifies `registry
      ensures none.None? && registry == Unref(old(registry), ref)
    {
      registry := Unref(registry, ref);
      return None;
    }

    /** Stores a new reference over whatever the state field holds. */
    method StoreState()
      modifies `widgetState, `registry
      ensures View() == TakeState(old(View()))
    {
      registry := Lose(registry, widgetState);
      widgetState := TakeRef();
    }

    /** `revert`. */
    method RevertWidget()
      modifies this
      ensures View() == Revert(old(View()))
    {
      if widgetMode.Readline? {
        verify := DropRef(verify);
        filter := DropRef(filter);
      }
      widgetMode := Normal;
      widgetClosure := DropRef(widgetClosure);
      widgetState := DropRef(widgetState);
    }

    /** `readline`: the callbacks of the setup run before the state reference is stored. */
    method ReadlineWidget(withVerify: bool, withFilter: bool, setup: seq<Op>)
      requires tui
      modifies this
      ensures View() == Exec(old(View()), CallReadline(withVerify, withFilter, setup))
      decreases setup, 1
    {
      RevertWidget();
      if withVerify {
        verify := TakeRef();
      }
      if withFilter {
        filter := TakeRef();
      }
      widgetClosure := TakeRef();
      widgetMode := Readline;
      assert View() == BeginReadline(old(View()), withVerify, withFilter);
      RunScript(setup);
      StoreState();
    }

    /** `listwnd` and `bufferwnd`, which ask for a window without a widget. */
    method PlainWidget(mode: Mode)
      requires tui && widgetMode.Normal?
      modifies this
      ensures View() == TakeState(TakeClosure(Revert(old(View())), mode))
    {
      RevertWidget();
      widgetMode := mode;
      widgetClosure := TakeRef();
      StoreState();
    }

    /** `tuiclose`, as far as references go. */
    method CloseWindow()
      requires tui
      modifies this
      ensures View() == Exec(old(View()), CallClose)
    {
      RevertWidget();
      tui := false;
      tuiState := DropRef(tuiState);
    }

    method Execute(op: Op)
      modifies this
      ensures View() == Exec(old(View()), op)
      decreases op, 2
    {
      match op {
        case CallReadline(v, f, setup) =>
          if tui {
            ReadlineWidget(v, f, setup);
          }
        case CallListView =>
          if tui && widgetMode.Normal? {
            PlainWidget(ListWnd);
          }
        case CallBufferView =>
          if tui && widgetMode.Normal? {
            PlainWidget(BufWnd);
          }
        case CallRevert =>
          if tui {
            RevertWidget();
          }
        case CallClose =>
          if tui {
            CloseWindow();
          }
      }
    }

    method RunScript(ops: seq<Op>)
      modifies this
      ensures View() == ExecAll(old(View()), ops)
      decreases ops, 0
    {
      if ops != [] {
        Execute(ops[0]);
        RunScript(ops[1..]);
      }
    }

    /** `callback_revert`, for a widget that has finished. */
    method CallbackRevert(script: seq<Op>)
      requires !widgetMode.Normal?
      modifies this
      ensures View() == Complete(old(View()), script)
    {
      var closure, state := widgetClosure, widgetState;
      widgetClosure, widgetState := None, None;
      RevertWidget();
      RunScript(script);
      var _ := DropRef(closure);
      var _ := DropRef(state);
    }
  }
}
