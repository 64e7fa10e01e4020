/** The session and tab registry (`AppState` of `state.rs`, and the install, switch, disconnect and close
    steps of `main.rs`): who holds a session's client, which tab has a terminal, and which tab is active. */
module Sessions {
  import opened Text

  /** A live connection; two connections are never the same client. */
  type Client = nat

  datatype Record = Record(id: nat, client: Option<Client>, busy: bool)

  datatype Tab = Tab(id: nat, session: Option<nat>, console: bool)

  /** Index of the first tab for which the test holds. */
  function Position(tabs: seq<Tab>, test: Tab -> bool): (i: Option<nat>)
    ensures i.Some? ==> i.value < |tabs| && test(tabs[i.value])
    ensures i.None? ==> forall j :: 0 <= j < |tabs| ==> !test(tabs[j])
  {
    if tabs == [] then None
    else if test(tabs[0]) then Some(0)
    else
      var rest := Position(tabs[1..], test);
      assert rest.None? ==> forall j :: 0 < j < |tabs| ==> tabs[j] == tabs[1..][j - 1];
      if rest.None? then None else Some(rest.value + 1)
  }

  function RemoveAt<T>(s: seq<T>, i: nat): (t: seq<T>)
    requires i < |s|
  {
    s[..i] + s[i + 1..]
  }

  predicate Free(t: Tab) {
    t.session.None? && !t.console
  }

  function RecordOf(sessions: map<nat, Record>, id: Option<nat>): (r: Option<Record>) {
    if id.Some? && id.value in sessions then Some(sessions[id.value]) else None
  }

  function WithoutSession(sessions: map<nat, Record>, id: Option<nat>): (m: map<nat, Record>) {
    if id.Some? then sessions - {id.value} else sessions
  }

  // ---------------------------------------------------------------------------
  // Who holds which client
  // ---------------------------------------------------------------------------

  /** Clients ever installed, with the session each was installed for, and the clients that background
      operations hold, with the session they were taken from. */
  datatype Ledger = Ledger(homes: map<Client, nat>, lent: map<Client, nat>)

  /** A client in a session's slot was installed for that session and is held nowhere else; an empty slot
      is busy, and its client is with a borrower. */
  ghost predicate SlotKept(l: Ledger, id: nat, r: Record) {
    && r.id == id
    && (r.busy <==> r.client.None?)
    && (r.client.Some? ==> r.client.value in l.homes && l.homes[r.client.value] == id && r.client.value !in l.lent)
    && (r.client.None? ==> exists c :: c in l.lent && l.lent[c] == id)
  }

  ghost predicate SlotsKept(l: Ledger, sessions: map<nat, Record>, next: nat) {
    forall id :: id in sessions ==> id < next && SlotKept(l, id, sessions[id])
  }

  /** A borrowed client is named by its own session, and a session id was given to one client only. */
  ghost predicate LedgerKept(l: Ledger, next: nat) {
    && (forall c :: c in l.lent ==> c in l.homes && l.lent[c] == l.homes[c])
    && (forall c :: c in l.homes ==> l.homes[c] < next)
    && (forall c, d :: c in l.homes && d in l.homes && l.homes[c] == l.homes[d] ==> c == d)
  }

  /** At most one of slot and borrower has a session's client. */
  lemma HeldOnce(l: Ledger, sessions: map<nat, Record>, next: nat, id: nat, c: Client, d: Client)
    requires SlotsKept(l, sessions, next) && LedgerKept(l, next)
    requires c in l.lent && l.lent[c] == id
    ensures id in sessions ==> sessions[id].client.None? && sessions[id].busy
    ensures d in l.lent && l.lent[d] == id ==> d == c
  {
    if id in sessions {
      assert SlotKept(l, id, sessions[id]);
    }
  }

  lemma LendKeeps(l: Ledger, sessions: map<nat, Record>, next: nat, id: nat)
    requires SlotsKept(l, sessions, next) && LedgerKept(l, next)
    requires id in sessions && sessions[id].client.Some?
    ensures var m := l.(lent := l.lent[sessions[id].client.value := id]);
            SlotsKept(m, sessions[id := Record(id, None, true)], next) && LedgerKept(m, next)
  {
    var c := sessions[id].client.value;
    var m := l.(lent := l.lent[c := id]);
    assert SlotKept(l, id, sessions[id]);
    assert c in m.lent && m.lent[c] == id;
    forall j | j in sessions && j != id
      ensures SlotKept(m, j, sessions[j])
    {
      assert SlotKept(l, j, sessions[j]);
      if sessions[j].client.None? {
        var b :| b in l.lent && l.lent[b] == j;
        assert b in m.lent && m.lent[b] == j;
      }
    }
  }

  lemma ReturnKeeps(l: Ledger, sessions: map<nat, Record>, next: nat, id: nat, c: Client)
    requires SlotsKept(l, sessions, next) && LedgerKept(l, next)
    requires c in l.lent && l.lent[c] == id
    ensures var m := l.(lent := l.lent - {c});
            var after := if id in sessions then sessions[id := Record(id, Some(c), false)] else sessions;
            SlotsKept(m, after, next) && LedgerKept(m, next)
  {
    var m := l.(lent := l.lent - {c});
    forall j | j in sessions && j != id
      ensures SlotKept(m, j, sessions[j])
    {
      assert SlotKept(l, j, sessions[j]);
      if sessions[j].client.None? {
        var b :| b in l.lent && l.lent[b] == j;
        assert b in m.lent && m.lent[b] == j;
      }
    }
  }

  /** A new connection gets an id that no client ever had. */
  lemma InstallKeeps(l: Ledger, sessions: map<nat, Record>, next: nat, c: Client)
    requires SlotsKept(l, sessions, next) && LedgerKept(l, next)
    requires c !in l.homes
    ensures var m := l.(homes := l.homes[c := next]);
            next !in sessions && SlotsKept(m, sessions[next := Record(next, Some(c), false)], next + 1)
            && LedgerKept(m, next + 1)
  {
    var m := l.(homes := l.homes[c := next]);
    forall j | j in sessions
      ensures j < next && SlotKept(m, j, sessions[j])
    {
      assert SlotKept(l, j, sessions[j]);
    }
  }

  // ---------------------------------------------------------------------------
  // Which tab names which session
  // ---------------------------------------------------------------------------

  ghost predicate Named(tabs: seq<Tab>, s: nat) {
    exists i :: 0 <= i < |tabs| && tabs[i].session == Some(s)
  }

  /** Tabs name different live sessions, and every session has its tab. */
  ghost predicate Linked(tabs: seq<Tab>, sessions: map<nat, Record>) {
    && (forall i :: 0 <= i < |tabs| && tabs[i].session.Some? ==> tabs[i].session.value in sessions)
    && (forall i, j :: 0 <= i < j < |tabs| && tabs[i].session.Some? ==> tabs[i].session != tabs[j].session)
    && (forall s :: s in sessions ==> Named(tabs, s))
  }

  ghost predicate TabIds(tabs: seq<Tab>, next: nat) {
    && (forall i :: 0 <= i < |tabs| ==> tabs[i].id < next)
    && (forall i, j :: 0 <= i < j < |tabs| ==> tabs[i].id != tabs[j].id)
  }

  lemma StillNamed(tabs: seq<Tab>, after: seq<Tab>, s: nat, gone: nat)
    requires Named(tabs, s) && gone < |tabs| && tabs[gone].session != Some(s)
    requires |after| == |tabs| && forall i :: 0 <= i < |tabs| && i != gone ==> after[i] == tabs[i]
    ensures Named(after, s)
  {
    var i :| 0 <= i < |tabs| && tabs[i].session == Some(s);
    assert after[i] == tabs[i];
  }

  lemma PushLinks(tabs: seq<Tab>, sessions: map<nat, Record>, t: Tab)
    requires Linked(tabs, sessions) && t.session.None?
    ensures Linked(tabs + [t], sessions)
  {
    forall s | s in sessions
      ensures Named(tabs + [t], s)
    {
      var i :| 0 <= i < |tabs| && tabs[i].session == Some(s);
      assert (tabs + [t])[i] == tabs[i];
    }
  }

  lemma RemoveLinks(tabs: seq<Tab>, sessions: map<nat, Record>, index: nat)
    requires Linked(tabs, sessions) && index < |tabs|
    ensures Linked(RemoveAt(tabs, index), WithoutSession(sessions, tabs[index].session))
  {
    var after := RemoveAt(tabs, index);
    forall s | s in WithoutSession(sessions, tabs[index].session)
      ensures Named(after, s)
    {
      var i :| 0 <= i < |tabs| && tabs[i].session == Some(s);
      var k := if i < index then i else i - 1;
      assert after[k] == tabs[i];
    }
  }

  lemma UnsetLinks(tabs: seq<Tab>, sessions: map<nat, Record>, index: nat, t: Tab)
    requires Linked(tabs, sessions) && index < |tabs| && t.session.None?
    ensures Linked(tabs[index := t], WithoutSession(sessions, tabs[index].session))
  {
    forall s | s in WithoutSession(sessions, tabs[index].session)
      ensures Named(tabs[index := t], s)
    {
      StillNamed(tabs, tabs[index := t], s, index);
    }
  }

  lemma SetLinks(tabs: seq<Tab>, sessions: map<nat, Record>, index: nat, r: Record)
    requires Linked(tabs, sessions) && index < |tabs| && tabs[index].session.None? && r.id !in sessions
    ensures Linked(tabs[index := tabs[index].(session := Some(r.id))], sessions[r.id := r])
  {
    var after := tabs[index := tabs[index].(session := Some(r.id))];
    assert after[index].session == Some(r.id);
    forall s | s in sessions
      ensures Named(after, s)
    {
      StillNamed(tabs, after, s, index);
    }
  }

  // ---------------------------------------------------------------------------
  // Which tab has a terminal
  // ---------------------------------------------------------------------------

  ghost predicate HasTab(tabs: seq<Tab>, id: nat) {
    exists i :: 0 <= i < |tabs| && tabs[i].id == id
  }

  /** The live terminals, kept by tab id, are those of the terminal tabs, none of which hosts a session. */
  ghost predicate Consoled(tabs: seq<Tab>, consoles: set<nat>) {
    && (forall i :: 0 <= i < |tabs| ==> (tabs[i].console <==> tabs[i].id in consoles))
    && (forall i :: 0 <= i < |tabs| && tabs[i].console ==> tabs[i].session.None?)
    && (forall id :: id in consoles ==> HasTab(tabs, id))
  }

  lemma PushConsoles(tabs: seq<Tab>, consoles: set<nat>, id: nat)
    requires Consoled(tabs, consoles) && TabIds(tabs, id)
    ensures Consoled(tabs + [Tab(id, None, false)], consoles)
  {
    var after := tabs + [Tab(id, None, false)];
    forall c | c in consoles ensures HasTab(after, c) && c != id {
      var i :| 0 <= i < |tabs| && tabs[i].id == c;
      assert after[i] == tabs[i];
    }
  }

  /** A tab whose terminal is opened, closed or kept, or that is given a session when it has none. */
  lemma ChangeConsoles(tabs: seq<Tab>, consoles: set<nat>, next: nat, index: nat, t: Tab)
    requires Consoled(tabs, consoles) && TabIds(tabs, next) && index < |tabs|
    requires t.id == tabs[index].id && (t.console ==> t.session.None?)
    ensures Consoled(tabs[index := t], if t.console then consoles + {t.id} else consoles - {t.id})
    ensures TabIds(tabs[index := t], next)
  {
    var after := tabs[index := t];
    assert after[index].id == t.id;
    forall c | c in consoles + {t.id} ensures HasTab(after, c) {
      if c != t.id {
        var i :| 0 <= i < |tabs| && tabs[i].id == c;
        assert after[i] == tabs[i];
      }
    }
  }

  lemma HostLinks(tabs: seq<Tab>, sessions: map<nat, Record>, consoles: set<nat>, next: nat, index: nat, r: Record)
    requires Linked(tabs, sessions) && Consoled(tabs, consoles) && TabIds(tabs, next)
    requires index < |tabs| && Free(tabs[index]) && r.id !in sessions
    ensures var after := tabs[index := tabs[index].(session := Some(r.id))];
            Linked(after, sessions[r.id := r]) && Consoled(after, consoles) && TabIds(after, next)
  {
    SetLinks(tabs, sessions, index, r);
    ChangeConsoles(tabs, consoles, next, index, tabs[index].(session := Some(r.id)));
  }

  lemma RemoveConsoles(tabs: seq<Tab>, consoles: set<nat>, next: nat, index: nat)
    requires Consoled(tabs, consoles) && TabIds(tabs, next) && index < |tabs|
    ensures Consoled(RemoveAt(tabs, index), consoles - {tabs[index].id})
  {
    var after := RemoveAt(tabs, index);
    forall c | c in consoles - {tabs[index].id} ensures HasTab(after, c) {
      var i :| 0 <= i < |tabs| && tabs[i].id == c;
      assert after[if i < index then i else i - 1] == tabs[i];
    }
  }

  // ---------------------------------------------------------------------------
  // The active tab
  // ---------------------------------------------------------------------------

  /** The active index after tab `index` of `n + 1` is gone. */
  function ActiveAfter(active: nat, index: nat, n: nat): (a: nat)
    requires n > 0
  {
    if active >= n then n - 1 else if index < active then active - 1 else active
  }

  /** The same tab stays active unless it was the one removed; then its right neighbour takes over, or the
      new last tab. */
  lemma ActiveTabStays<T>(tabs: seq<T>, active: nat, index: nat)
    requires active < |tabs| && index < |tabs| && |tabs| > 1
    ensures var a := ActiveAfter(active, index, |tabs| - 1);
            a < |tabs| - 1
            && (index != active ==> RemoveAt(tabs, index)[a] == tabs[active])
            && (index == active ==> a == if index < |tabs| - 1 then index else |tabs| - 2)
  {
  }

  class AppState {
    var sessions: map<nat, Record>
    var tabs: seq<Tab>
    var activeTab: nat
    var nextSessionId: nat
    var nextTabId: nat
    /** The ids of the tabs whose terminals live (`CONSOLES` of `console.rs`). */
    var consoles: set<nat>
    ghost var ledger: Ledger

    ghost predicate Valid()
      reads this
    {
      Registered() && Consoled(tabs, consoles)
    }

    ghost predicate Registered()
      reads this
    {
      && SlotsKept(ledger, sessions, nextSessionId) && LedgerKept(ledger, nextSessionId)
      && Linked(tabs, sessions) && TabIds(tabs, nextTabId)
      && (activeTab < |tabs| || (tabs == [] && activeTab == 0))
    }

    constructor ()
      ensures Valid() && tabs == [] && sessions == map[] && ledger == Ledger(map[], map[]) && consoles == {}
    {
      sessions := map[];
      tabs := [];
      activeTab := 0;
      nextSessionId, nextTabId := 1, 1;
      consoles := {};
      ledger := Ledger(map[], map[]);
    }

    /** Lends the client of an idle session. */
    method TakeSessionClient(id: nat) returns (client: Option<Client>)
      requires Valid()
      modifies `sessions, `ledger
      ensures Valid()
      ensures client.Some? <==> id in old(sessions) && !old(sessions)[id].busy
      ensures client.Some? ==> client == old(sessions)[id].client
                               && ledger == old(ledger).(lent := old(ledger.lent)[client.value := id])
                               && sessions == old(sessions)[id := Record(id, None, true)]
      ensures client.None? ==> sessions == old(sessions) && ledger == old(ledger)
    {
      if id !in sessions {
        return None;
      }
      var record := sessions[id];
      assert SlotKept(ledger, id, record);
      if record.busy {
        return None;
      }
      client := record.client;
      if client.None? {
        return None;
      }
      LendKeeps(ledger, sessions, nextSessionId, id);
      sessions := sessions[id := record.(client := None, busy := true)];
      ledger := ledger.(lent := ledger.lent[client.value := id]);
    }

    /** A borrower gives back what it took: to the session it took it from while that is open, and to no
        other session ever. */
    method ReturnSessionClient(id: nat, client: Client)
      requires Valid() && client in ledger.lent && ledger.lent[client] == id
      modifies `sessions, `ledger
      ensures Valid() && ledger == old(ledger).(lent := old(ledger.lent) - {client})
      ensures sessions == if id in old(sessions) then old(sessions)[id := Record(id, Some(client), false)]
                          else old(sessions)
    {
      HeldOnce(ledger, sessions, nextSessionId, id, client, client);
      ReturnKeeps(ledger, sessions, nextSessionId, id, client);
      if id in sessions {
        var record := sessions[id];
        record := record.(busy := false);
        if record.client.None? {
          record := record.(client := Some(client));
        }
        assert SlotKept(ledger, id, sessions[id]);
        sessions := sessions[id := record];
      }
      ledger := ledger.(lent := ledger.lent - {client});
    }

    method PushBlankTab() returns (index: nat)
      requires Valid()
      modifies `tabs, `nextTabId
      ensures Valid() && index == |old(tabs)| && nextTabId == old(nextTabId) + 1
      ensures tabs == old(tabs) + [Tab(old(nextTabId), None, false)]
    {
      var id := nextTabId;
      nextTabId := nextTabId + 1;
      PushLinks(tabs, sessions, Tab(id, None, false));
      PushConsoles(tabs, consoles, id);
      tabs := tabs + [Tab(id, None, false)];
      index := |tabs| - 1;
    }

    /** Removes a tab and its session, but never the last tab. Its terminal is left to the caller. */
    method RemoveTab(index: nat) returns (removed: Option<(Tab, Option<Record>)>)
      requires Registered()
      modifies `tabs, `sessions, `activeTab
      ensures Registered()
      ensures removed.None? <==> index >= |old(tabs)| || |old(tabs)| <= 1
      ensures removed.None? ==> tabs == old(tabs) && sessions == old(sessions) && activeTab == old(activeTab)
      ensures removed.Some? ==>
                && removed.value.0 == old(tabs)[index]
                && removed.value.1 == (if old(tabs)[index].session.None? then None
                                       else Some(old(sessions)[old(tabs)[index].session.value]))
                && sessions == WithoutSession(old(sessions), old(tabs)[index].session)
                && tabs == RemoveAt(old(tabs), index)
                && activeTab == ActiveAfter(old(activeTab), index, |tabs|)
    {
      if index >= |tabs| || |tabs| <= 1 {
        return None;
      }
      var tab := tabs[index];
      RemoveLinks(tabs, sessions, index);
      tabs := tabs[..index] + tabs[index + 1..];
      var record := RecordOf(sessions, tab.session);
      sessions := WithoutSession(sessions, tab.session);
      if activeTab >= |tabs| {
        activeTab := |tabs| - 1;
      } else if index < activeTab {
        activeTab := activeTab - 1;
      }
      return Some((tab, record));
    }

    /** Installs a fresh connection: in the tab that asked when it is free, else in the active tab when that
        is free, else in a new tab; that tab becomes active. */
    method Install(tab: Option<nat>, client: Client) returns (id: nat)
      requires Valid() && client !in ledger.homes
      modifies this
      ensures Valid() && id == old(nextSessionId) && nextSessionId == id + 1 && id !in old(sessions)
      ensures sessions == old(sessions)[id := Record(id, Some(client), false)]
      ensures ledger == old(ledger).(homes := old(ledger.homes)[client := id])
      ensures Hosts(old(tabs), tabs, activeTab, Some(id)) && consoles == old(consoles)
      ensures Preferred(old(tabs), old(activeTab), tab, activeTab)
    {
      var index := ChooseTab(tab);
      ChosenHosts(old(tabs), tabs, index, Some(nextSessionId));
      id := Host(index, client);
    }

    /** Puts a fresh connection into a free tab, which becomes active. */
    method Host(index: nat, client: Client) returns (id: nat)
      requires Valid() && client !in ledger.homes && index < |tabs| && Free(tabs[index])
      modifies `sessions, `tabs, `activeTab, `nextSessionId, `ledger
      ensures Valid() && id == old(nextSessionId) && nextSessionId == id + 1 && id !in old(sessions)
      ensures sessions == old(sessions)[id := Record(id, Some(client), false)]
      ensures ledger == old(ledger).(homes := old(ledger.homes)[client := id])
      ensures activeTab == index && tabs == old(tabs)[index := Tab(old(tabs)[index].id, Some(id), false)]
    {
      id := nextSessionId;
      nextSessionId := nextSessionId + 1;
      activeTab := index;
      InstallKeeps(ledger, sessions, id, client);
      HostLinks(tabs, sessions, consoles, nextTabId, index, Record(id, Some(client), false));
      sessions := sessions[id := Record(id, Some(client), false)];
      ledger := ledger.(homes := ledger.homes[client := id]);
      tabs := tabs[index := tabs[index].(session := Some(id))];
    }

    /** Installs a fresh terminal, in a tab chosen in the same way. */
    method InstallConsole(tab: Option<nat>)
      requires Valid()
      modifies this
      ensures Valid() && sessions == old(sessions) && ledger == old(ledger) && nextSessionId == old(nextSessionId)
      ensures Preferred(old(tabs), old(activeTab), tab, activeTab)
      ensures Hosts(old(tabs), tabs, activeTab, None) && consoles == old(consoles) + {tabs[activeTab].id}
      ensures tabs[activeTab].id !in old(consoles)
    {
      var index := ChooseTab(tab);
      ChosenHosts(old(tabs), tabs, index, None);
      HostConsole(index);
    }

    method HostConsole(index: nat)
      requires Valid() && index < |tabs| && Free(tabs[index])
      modifies `tabs, `activeTab, `consoles
      ensures Valid() && activeTab == index && tabs == old(tabs)[index := Tab(old(tabs)[index].id, None, true)]
      ensures consoles == old(consoles) + {tabs[index].id} && tabs[index].id !in old(consoles)
    {
      activeTab := index;
      var hosting := tabs[index].(console := true);
      ChangeConsoles(tabs, consoles, nextTabId, index, hosting);
      UnsetLinks(tabs, sessions, index, hosting);
      consoles := consoles + {tabs[index].id};
      tabs := tabs[index := hosting];
    }

    /** Shows another tab; an index past the end shows the last one. */
    method ActivateTab(index: nat)
      requires Valid()
      modifies `activeTab
      ensures Valid()
      ensures tabs != [] ==> activeTab == if index < |tabs| then index else |tabs| - 1
    {
      if tabs == [] {
        return;
      }
      activeTab := if index < |tabs| - 1 then index else |tabs| - 1;
    }

    /** The tab that may host a new session or terminal. */
    method ChooseTab(tab: Option<nat>) returns (index: nat)
      requires Valid()
      modifies `tabs, `nextTabId
      ensures Valid() && index < |tabs| && Free(tabs[index])
      ensures Chosen(old(tabs), tabs, index) && Preferred(old(tabs), activeTab, tab, index)
    {
      if tab.Some? {
        var byId := Position(tabs, (t: Tab) => t.id == tab.value);
        if byId.Some? && Free(tabs[byId.value]) {
          return byId.value;
        }
      }
      assert !Wanted(tabs, tab);
      if activeTab < |tabs| && Free(tabs[activeTab]) {
        return activeTab;
      }
      index := PushBlankTab();
    }

    /** Ends the active tab's terminal, if it has one; the tab stays. */
    method DisconnectConsole() returns (done: bool)
      requires Valid()
      modifies `tabs, `consoles
      ensures Valid() && done == (activeTab < |old(tabs)| && old(tabs)[activeTab].console)
      ensures !done ==> tabs == old(tabs) && consoles == old(consoles)
      ensures done ==>
                && tabs == old(tabs)[activeTab := old(tabs)[activeTab].(console := false)]
                && consoles == old(consoles) - {old(tabs)[activeTab].id}
    {
      if activeTab >= |tabs| || !tabs[activeTab].console {
        return false;
      }
      var tab := tabs[activeTab].(console := false);
      ChangeConsoles(tabs, consoles, nextTabId, activeTab, tab);
      UnsetLinks(tabs, sessions, activeTab, tab);
      consoles := consoles - {tab.id};
      tabs := tabs[activeTab := tab];
      return true;
    }

    /** Ends the active tab's session; the tab stays. */
    method Disconnect() returns (client: Option<Client>)
      requires Valid()
      modifies `tabs, `sessions
      ensures Valid() && |tabs| == |old(tabs)|
      ensures activeTab < |tabs| ==>
                var s := old(tabs)[activeTab].session;
                && tabs == old(tabs)[activeTab := old(tabs)[activeTab].(session := None)]
                && sessions == WithoutSession(old(sessions), s)
                && client == (if s.Some? && s.value in old(sessions) then old(sessions)[s.value].client else None)
      ensures tabs == [] ==> sessions == old(sessions) && client == None
    {
      client := None;
      if activeTab >= |tabs| {
        return;
      }
      var id := tabs[activeTab].session;
      var tab := tabs[activeTab].(session := None);
      UnsetLinks(tabs, sessions, activeTab, tab);
      ChangeConsoles(tabs, consoles, nextTabId, activeTab, tab);
      tabs := tabs[activeTab := tab];
      client := ClientOf(RecordOf(sessions, id));
      sessions := WithoutSession(sessions, id);
    }

    /** Ends what the only tab hosts. */
    method EmptyOnlyTab()
      requires Valid() && |tabs| == 1
      modifies `tabs, `sessions, `activeTab, `consoles
      ensures Valid() && tabs == [Tab(old(tabs)[0].id, None, false)] && activeTab == 0
      ensures sessions == WithoutSession(old(sessions), old(tabs)[0].session)
      ensures consoles == old(consoles) - {old(tabs)[0].id}
    {
      var blank := Tab(tabs[0].id, None, false);
      UnsetLinks(tabs, sessions, 0, blank);
      ChangeConsoles(tabs, consoles, nextTabId, 0, blank);
      consoles := consoles - {blank.id};
      sessions := WithoutSession(sessions, tabs[0].session);
      tabs := tabs[0 := blank];
      activeTab := 0;
    }

    /** Closes a tab and its terminal; the last tab is emptied instead of removed. */
    method CloseTab(index: nat)
      requires Valid() && index < |tabs|
      modifies `tabs, `sessions, `activeTab, `consoles
      ensures Valid() && |tabs| >= 1
      ensures |old(tabs)| > 1 ==> tabs == RemoveAt(old(tabs), index)
      ensures |old(tabs)| == 1 ==> tabs == [Tab(old(tabs)[0].id, None, false)] && activeTab == 0
      ensures sessions == WithoutSession(old(sessions), old(tabs)[index].session)
      ensures consoles == old(consoles) - {old(tabs)[index].id}
      ensures |old(tabs)| > 1 && index != old(activeTab) ==> tabs[activeTab] == old(tabs)[old(activeTab)]
      ensures |old(tabs)| > 1 && index == old(activeTab) ==> activeTab == if index < |tabs| then index else |tabs| - 1
    {
      if |tabs| <= 1 {
        EmptyOnlyTab();
      } else {
        RemoveConsoles(tabs, consoles, nextTabId, index);
        ActiveTabStays(tabs, activeTab, index);
        var id := tabs[index].id;
        var removed := RemoveTab(index);
        consoles := consoles - {id};
      }
    }
  }

  function ClientOf(r: Option<Record>): (c: Option<Client>) {
    if r.Some? then r.value.client else None
  }

  /** One free tab, an old one or a new last one, now hosts the session, or else a terminal; the others are as
      before. */
  ghost predicate Hosts(before: seq<Tab>, after: seq<Tab>, index: nat, session: Option<nat>) {
    && index < |after| && after[index].session == session && after[index].console == session.None?
    && (|after| == |before| || (|after| == |before| + 1 && index == |before|))
    && (forall i :: 0 <= i < |before| && i != index ==> after[i] == before[i])
    && (index < |before| ==> Free(before[index]) && after[index].id == before[index].id)
  }

  /** The tab that asked is there and hosts neither a session nor a terminal. */
  ghost predicate Wanted(tabs: seq<Tab>, tab: Option<nat>) {
    exists i :: 0 <= i < |tabs| && tab == Some(tabs[i].id) && tabs[i].session.None? && !tabs[i].console
  }

  /** The tab that asked comes first, then the active one, if they are free, and then a new one. */
  ghost predicate Preferred(before: seq<Tab>, active: nat, tab: Option<nat>, index: nat) {
    if Wanted(before, tab) then index < |before| && tab == Some(before[index].id)
    else if active < |before| && before[active].session.None? && !before[active].console then index == active
    else index == |before|
  }

  /** An old tab or a new last one. */
  ghost predicate Chosen(before: seq<Tab>, after: seq<Tab>, index: nat) {
    after == before || (|after| == |before| + 1 && index == |before| && before <= after)
  }

  lemma ChosenHosts(before: seq<Tab>, chosen: seq<Tab>, index: nat, session: Option<nat>)
    requires Chosen(before, chosen, index) && index < |chosen| && Free(chosen[index])
    ensures var t := Tab(chosen[index].id, session, session.None?); Hosts(before, chosen[index := t], index, session)
  {
  }

  // ---------------------------------------------------------------------------
  // Whole runs
  // ---------------------------------------------------------------------------

  datatype Op = Lend(id: nat) | GiveBack(id: nat, client: Client) | Connected(tab: Option<nat>, client: Client)
              | ConsoleConnected(tab: Option<nat>) | NewTab | Selected(index: nat) | Disconnected
              | Closed(index: nat)

  /** A borrower returns only what it holds, to where it took it from, and every connection is new. */
  ghost predicate Allowed(app: AppState, op: Op)
    reads app
  {
    match op
    case GiveBack(id, client) => client in app.ledger.lent && app.ledger.lent[client] == id
    case Connected(_, client) => client !in app.ledger.homes
    case _ => true
  }

  /** What a step does to the ledger; `taken` is the client that a lending got hold of. */
  ghost function Entered(l: Ledger, op: Op, taken: Option<Client>, nextId: nat): (m: Ledger) {
    match op
    case Lend(id) => if taken.Some? then l.(lent := l.lent[taken.value := id]) else l
    case GiveBack(_, client) => l.(lent := l.lent - {client})
    case Connected(_, client) => l.(homes := l.homes[client := nextId])
    case _ => l
  }

  /** The registry without its terminals. */
  datatype View = View(sessions: map<nat, Record>, tabs: seq<Tab>, active: nat, nextSession: nat, nextTab: nat,
                       ledger: Ledger)

  ghost function Seen(app: AppState): (v: View)
    reads app
  {
    View(app.sessions, app.tabs, app.activeTab, app.nextSessionId, app.nextTabId, app.ledger)
  }

  /** A client is lent, or comes back. */
  ghost predicate Borrowed(op: Op, v: View, w: View, taken: Option<Client>) {
    && w.tabs == v.tabs && w.active == v.active
    && match op
       case Lend(id) =>
         && (taken.Some? <==> id in v.sessions && !v.sessions[id].busy)
         && (taken.Some? ==> taken == v.sessions[id].client && w.sessions == v.sessions[id := Record(id, None, true)])
         && (taken.None? ==> w.sessions == v.sessions)
       case GiveBack(id, client) =>
         w.sessions == if id in v.sessions then v.sessions[id := Record(id, Some(client), false)] else v.sessions
       case _ => true
  }

  /** A connection, a terminal or a tab arrives. */
  ghost predicate Arrived(op: Op, v: View, w: View) {
    match op
    case Connected(tab, client) =>
      && w.sessions == v.sessions[v.nextSession := Record(v.nextSession, Some(client), false)]
      && Hosts(v.tabs, w.tabs, w.active, Some(v.nextSession)) && Preferred(v.tabs, v.active, tab, w.active)
    case ConsoleConnected(tab) =>
      w.sessions == v.sessions && Hosts(v.tabs, w.tabs, w.active, None) && Preferred(v.tabs, v.active, tab, w.active)
    case NewTab =>
      w.sessions == v.sessions && w.tabs == v.tabs + [Tab(v.nextTab, None, false)] && w.active == v.active
    case _ => true
  }

  /** Another tab is shown, or one is emptied or closed. */
  ghost predicate Left(op: Op, v: View, w: View) {
    match op
    case Selected(index) =>
      && w.sessions == v.sessions && w.tabs == v.tabs
      && w.active == if index < |v.tabs| then index else if v.tabs != [] then |v.tabs| - 1 else v.active
    case Disconnected =>
      && w.active == v.active && |w.tabs| == |v.tabs|
      && (v.active < |v.tabs| ==>
            && w.tabs == v.tabs[v.active := Tab(v.tabs[v.active].id, None, false)]
            && EndedWith(v, w, v.tabs[v.active].session))
    case Closed(index) =>
      if index >= |v.tabs| then w == v
      else
        && w.tabs == (if |v.tabs| > 1 then RemoveAt(v.tabs, index) else [Tab(v.tabs[0].id, None, false)])
        && EndedWith(v, w, v.tabs[index].session)
        && (index != v.active && v.active < |v.tabs| ==> w.active < |w.tabs| && w.tabs[w.active] == v.tabs[v.active])
    case _ => true
  }

  /** That session, if any, is gone, and no other. */
  ghost predicate EndedWith(v: View, w: View, session: Option<nat>) {
    forall s :: s in w.sessions <==> s in v.sessions && session != Some(s)
  }

  ghost predicate Did(op: Op, v: View, w: View, taken: Option<Client>) {
    && w.ledger == Entered(v.ledger, op, taken, v.nextSession) && w.nextSession >= v.nextSession
    && (v.tabs != [] || op.NewTab? || op.Connected? || op.ConsoleConnected? ==> w.tabs != [])
    && (taken.Some? ==> op.Lend? && taken.value !in v.ledger.lent)
    && match op
       case Lend(_) => Borrowed(op, v, w, taken)
       case GiveBack(_, _) => Borrowed(op, v, w, taken)
       case Connected(_, _) => Arrived(op, v, w)
       case ConsoleConnected(_) => Arrived(op, v, w)
       case NewTab => Arrived(op, v, w)
       case _ => Left(op, v, w)
  }

  /** One step of an interleaving: operations borrow and return clients, connections arrive, tabs come and
      go, in any order. What was asked for is done, the invariant survives, the last tab too, and no session id
      changes its client. */
  method Perform(app: AppState, op: Op) returns (taken: Option<Client>)
    requires app.Valid() && Allowed(app, op)
    modifies app
    ensures app.Valid() && Did(op, old(Seen(app)), Seen(app), taken)
    ensures forall c :: c in old(app.ledger.homes) ==>
              c in app.ledger.homes && app.ledger.homes[c] == old(app.ledger.homes)[c]
  {
    taken := None;
    match op
    case Lend(id) => taken := LendOne(app, id);
    case GiveBack(id, client) => app.ReturnSessionClient(id, client);
    case Connected(_, _) => Arrive(app, op);
    case ConsoleConnected(_) => Arrive(app, op);
    case NewTab => Arrive(app, op);
    case Selected(index) => app.ActivateTab(index);
    case Disconnected => EndActive(app);
    case Closed(index) => CloseOne(app, index);
  }

  method LendOne(app: AppState, id: nat) returns (taken: Option<Client>)
    requires app.Valid()
    modifies app
    ensures app.Valid() && Did(Lend(id), old(Seen(app)), Seen(app), taken)
  {
    assert id in app.sessions ==> SlotKept(app.ledger, id, app.sessions[id]);
    taken := app.TakeSessionClient(id);
  }

  method Arrive(app: AppState, op: Op)
    requires app.Valid() && Allowed(app, op) && (op.Connected? || op.ConsoleConnected? || op.NewTab?)
    modifies app
    ensures app.Valid() && Did(op, old(Seen(app)), Seen(app), None)
  {
    match op
    case Connected(tab, client) =>
      var id := app.Install(tab, client);
    case ConsoleConnected(tab) =>
      app.InstallConsole(tab);
    case NewTab =>
      var index := app.PushBlankTab();
  }

  /** Ends what the active tab hosts. */
  method EndActive(app: AppState)
    requires app.Valid()
    modifies app
    ensures app.Valid() && Did(Disconnected, old(Seen(app)), Seen(app), None)
  {
    var done := app.DisconnectConsole();
    if !done {
      var client := app.Disconnect();
    }
  }

  method CloseOne(app: AppState, index: nat)
    requires app.Valid()
    modifies app
    ensures app.Valid() && Did(Closed(index), old(Seen(app)), Seen(app), None)
  {
    if index < |app.tabs| {
      app.CloseTab(index);
    }
  }

  /** Whole runs. Borrowers act in any order, each on what it holds, and connections arrive under new clients;
      what is not allowed does not happen. In the end the borrowers hold exactly the lent clients, none of which
      is in a slot, and once there was a tab there still is one. */
  method RunAll(ops: seq<Op>) returns (app: AppState, held: map<Client, nat>, known: set<Client>)
    ensures fresh(app) && app.Valid()
    ensures held == app.ledger.lent && known == app.ledger.homes.Keys
    ensures forall c :: c in held && held[c] in app.sessions ==>
              app.sessions[held[c]].busy && app.sessions[held[c]].client.None?
    ensures NewTab in ops ==> app.tabs != []
  {
    app := new AppState();
    held, known := map[], {};
    var i := 0;
    while i < |ops|
      invariant 0 <= i <= |ops| && fresh(app) && app.Valid()
      invariant held == app.ledger.lent && known == app.ledger.homes.Keys
      invariant NewTab in ops[..i] ==> app.tabs != []
    {
      assert ops[..i + 1] == ops[..i] + [ops[i]];
      var op := ops[i];
      var allowed := match op
        case GiveBack(id, client) => client in held && held[client] == id
        case Connected(_, client) => client !in known
        case _ => true;
      if allowed {
        var taken := Perform(app, op);
        match op
        case Lend(id) =>
          if taken.Some? {
            held := held[taken.value := id];
          }
        case GiveBack(_, client) =>
          held := held - {client};
        case Connected(_, client) =>
          known := known + {client};
        case _ =>
      }
      i := i + 1;
    }
    assert ops[..i] == ops;
    forall c | c in held && held[c] in app.sessions
      ensures app.sessions[held[c]].busy && app.sessions[held[c]].client.None?
    {
      HeldOnce(app.ledger, app.sessions, app.nextSessionId, held[c], c, c);
    }
  }
}
