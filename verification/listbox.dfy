/** The selection state of the list-box widget: the labels shown to the user,
    an optional parallel list of user data, the C-string view handed to the
    renderer, and the selected index. The selection lives in a Value<int>
    holder whose implementation is not part of this model; it is modelled by
    the selected integer and a flag that says whether the holder holds a
    value, and clearing the holder only lowers the flag. */
module ListBox {
  import opened Wrappers

  /** Index of the first occurrence of val in s (std::find). The result is |s|
      when val does not occur, the end iterator. */
  method Find<T(==)>(s: seq<T>, val: T) returns (i: nat)
    ensures i <= |s|
    ensures i < |s| <==> val in s
    ensures i < |s| ==> s[i] == val
    ensures forall j :: 0 <= j < i ==> s[j] != val
  {
    i := 0;
    while i < |s| && s[i] != val
      invariant i <= |s|
      invariant forall j :: 0 <= j < i ==> s[j] != val
    {
      i := i + 1;
    }
  }

  class ListBoxWidget<T(==)> {
    /** The selected index held by the Value<int>; -1 means no selection. */
    var selected: int
    /** Whether the Value<int> holds a value (value.clear() empties it). */
    var holdsValue: bool
    var elements: seq<string>
    var userData: seq<T>
    /** elementsCString: entry i stands for elements[i].c_str(). */
    var cstrings: seq<string>

    /** What every public operation that completes leaves behind: the user data
        is absent or parallel to the labels, and the renderer's view lists the
        labels. */
    predicate Consistent()
      reads this
    {
      (|userData| == 0 || |userData| == |elements|) && cstrings == elements
    }

    /** The widget built with labels elems and initial selection sel: setElements
        with no user data, then setSelected(sel). */
    constructor(elems: seq<string>, sel: int)
      ensures elements == elems && userData == [] && cstrings == elems
      ensures selected == sel && holdsValue
      ensures Consistent()
    {
      selected := sel;
      holdsValue := true;
      elements := [];
      userData := [];
      cstrings := [];
      new;
      SetElements(elems);
      SetSelected(sel);
    }

    /** hasSelection: the index is not negative. */
    predicate HasSelection()
      reads this
    {
      selected >= 0
    }

    predicate Empty()
      reads this
    {
      |elements| == 0
    }

    /** getSelectedElement: the caller must have selected a valid index, since
        setSelected(int) does not check it. */
    function GetSelectedElement(): (r: string)
      reads this
      requires 0 <= selected < |elements|
      ensures r in elements
    {
      elements[selected]
    }

    /** getSelectedUserData, under the same obligation as GetSelectedElement. */
    function GetSelectedUserData(): (r: T)
      reads this
      requires 0 <= selected < |userData|
      ensures r in userData
    {
      userData[selected]
    }

    method SetSelected(idx: int)
      modifies this
      ensures selected == idx && holdsValue
      ensures elements == old(elements) && userData == old(userData) && cstrings == old(cstrings)
    {
      selected := idx;
      holdsValue := true;
    }

    /** setSelected(T): selects the first index whose user datum is val; when
        there is none, a warning is logged and nothing changes. */
    method SetSelectedByValue(val: T)
      modifies this
      ensures elements == old(elements) && userData == old(userData) && cstrings == old(cstrings)
      ensures val !in userData ==> selected == old(selected) && holdsValue == old(holdsValue)
      ensures val in userData ==>
        holdsValue && 0 <= selected < |userData| && GetSelectedUserData() == val &&
        forall j :: 0 <= j < selected ==> userData[j] != val
    {
      var i := Find(userData, val);
      if i < |userData| {
        SetSelected(i);
      }
    }

    method SetEmptySelection()
      modifies this
      ensures !HasSelection() && holdsValue
      ensures elements == old(elements) && userData == old(userData) && cstrings == old(cstrings)
    {
      SetSelected(-1);
    }

    /** setUserData: a non-empty list must be as long as the labels. */
    method SetUserData(data: seq<T>) returns (s: Status)
      modifies this
      ensures s.Error? <==> |data| != 0 && |data| != |elements|
      ensures s.Ok? ==> userData == data
      ensures s.Error? ==> userData == old(userData)
      ensures elements == old(elements) && cstrings == old(cstrings)
      ensures selected == old(selected) && holdsValue == old(holdsValue)
      ensures s.Ok? && cstrings == elements ==> Consistent()
    {
      if |data| != 0 && |data| != |elements| {
        return Error("vector sizes must be equal");
      }
      userData := data;
      return Ok;
    }

    /** getUserData: the datum at id, or an error when there is none. */
    method GetUserData(id: nat) returns (r: Result<T, string>)
      ensures r.Failure? <==> id >= |userData|
      ensures r.Success? ==> r.value == userData[id]
    {
      if id >= |userData| {
        return Failure("no such element");
      }
      return Success(userData[id]);
    }

    /** refreshList: rebuilds the renderer's view and selects the first label,
        or empties the selection holder when there are no labels. */
    method RefreshList()
      modifies this
      ensures cstrings == elements
      ensures elements == old(elements) && userData == old(userData)
      ensures |elements| > 0 ==> selected == 0 && holdsValue
      ensures |elements| == 0 ==> selected == old(selected) && !holdsValue
    {
      var view: seq<string> := [];
      if |elements| > 0 {
        var i := 0;
        while i < |elements|
          invariant i <= |elements|
          invariant |view| == i
          invariant forall j :: 0 <= j < i ==> view[j] == elements[j]
        {
          view := view + [elements[i]];
          i := i + 1;
        }
        cstrings := view;
        SetSelected(0);
      } else {
        cstrings := view;
        holdsValue := false;
      }
    }

    /** setElements(elems, data): the labels are replaced first, then the user
        data is checked against the new labels. When that check raises, the
        labels stay replaced while the user data, the renderer's view and the
        selection keep their old values. */
    method SetElementsWithData(elems: seq<string>, data: seq<T>) returns (s: Status)
      modifies this
      ensures elements == elems
      ensures s.Error? <==> |data| != 0 && |data| != |elems|
      ensures s.Error? ==>
        userData == old(userData) && cstrings == old(cstrings) &&
        selected == old(selected) && holdsValue == old(holdsValue)
      ensures s.Ok? ==> userData == data && Consistent()
      ensures s.Ok? && |elems| > 0 ==> selected == 0 && holdsValue
      ensures s.Ok? && |elems| == 0 ==> !HasSelection() && !holdsValue
    {
      elements := elems;
      s := SetUserData(data);
      if s.Error? {
        return;
      }
      SetEmptySelection();
      RefreshList();
    }

    /** setElements(elems): new labels with no user data; this always completes. */
    method SetElements(elems: seq<string>)
      modifies this
      ensures elements == elems && userData == [] && cstrings == elems
      ensures |elems| > 0 ==> selected == 0 && holdsValue
      ensures |elems| == 0 ==> !HasSelection() && !holdsValue
      ensures Consistent()
    {
      var s := SetElementsWithData(elems, []);
    }

    /** clear: no labels, no user data and no selection. */
    method Clear()
      modifies this
      ensures Empty() && !HasSelection() && !holdsValue
      ensures userData == [] && cstrings == []
      ensures Consistent()
    {
      SetElements([]);
    }
  }

  /** After a call to setElements that raises, the widget is left inconsistent
      whenever the old user data is not parallel to the new labels. */
  method StaleAfterFailedSetElements() returns (w: ListBoxWidget<int>)
    ensures w.elements == ["one", "two", "three"] && w.userData == [10, 20]
    ensures !w.Consistent()
  {
    w := new ListBoxWidget<int>(["one", "two"], 0);
    var s := w.SetUserData([10, 20]);
    assert s.Ok?;
    s := w.SetElementsWithData(["one", "two", "three"], [1]);
    assert s.Error?;
  }
}
