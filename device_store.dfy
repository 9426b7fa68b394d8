/**
 * The localStorage-backed device store of lib/store/deviceStore.ts: a
 * generator of ids shaped like a version-4 UUID (section 4.4 of RFC 4122)
 * and a store whose `initializeDeviceId` fills an empty id slot once.
 * `Math.random` is replaced by the sequence of draws it would have given.
 */
module DeviceStore {
  import opened Js
  import opened Hex

  /** Every `x` and `y` is replaced; everything else is copied. */
  const Template: string := "xxxxxxxx-xxxx-4xxx-yxxx-xxxxxxxxxxxx"

  /** Number of `x`/`y` slots in the template, so of random draws. */
  const Draws: nat := 31

  /** The localStorage key the store is persisted under. */
  const StorageKey: string := "device-storage"

  /** The characters the pattern `/[xy]/g` matches. */
  predicate IsSlot(c: char)
  {
    c == 'x' || c == 'y'
  }

  function SlotCount(t: string): nat
  {
    if t == [] then 0 else (if IsSlot(t[0]) then 1 else 0) + SlotCount(t[1..])
  }

  lemma {:induction false} SlotCountAppend(a: string, b: string)
    ensures SlotCount(a + b) == SlotCount(a) + SlotCount(b)
  {
    if a == [] {
      assert a + b == b;
    } else {
      assert (a + b)[1..] == a[1..] + b;
      SlotCountAppend(a[1..], b);
    }
  }

  /** The number of slots in a prefix, unfolded by one character. */
  lemma SlotCountPrefix(t: string)
    requires t != []
    ensures forall i :: 0 < i <= |t| ==>
      SlotCount(t[..i]) == (if IsSlot(t[0]) then 1 else 0) + SlotCount(t[1..][..i - 1])
  {
    forall i | 0 < i <= |t|
      ensures SlotCount(t[..i]) == (if IsSlot(t[0]) then 1 else 0) + SlotCount(t[1..][..i - 1])
    {
      assert t[..i][1..] == t[1..][..i - 1];
    }
  }

  /** The template read as four pieces, each ending just after a hyphen. */
  lemma TemplatePieces()
    ensures Template == "xxxxxxxx-" + ("xxxx-4xxx-" + ("yxxx-" + "xxxxxxxxxxxx"))
  {
  }

  lemma PieceSlots()
    ensures SlotCount("xxxxxxxx-") == 8
    ensures SlotCount("xxxx-4xxx-") == 7
    ensures SlotCount("yxxx-") == 4
    ensures SlotCount("xxxxxxxxxxxx") == 12
  {
  }

  lemma TemplateSlots()
    ensures SlotCount(Template) == Draws
  {
    var a, b, c, d := "xxxxxxxx-", "xxxx-4xxx-", "yxxx-", "xxxxxxxxxxxx";
    TemplatePieces();
    PieceSlots();
    SlotCountAppend(c, d);
    SlotCountAppend(b, c + d);
    SlotCountAppend(a, b + (c + d));
  }

  /** `(r & 0x3) | 0x8`: keeps the two low bits of the draw, forces binary 10xx. */
  function VariantNibble(r: Nibble): (v: Nibble)
    ensures 8 <= v <= 11
    ensures v % 4 == r % 4
  {
    (((r as bv8) & 0x3) | 0x8) as int
  }

  /** The replacement text for one matched slot `c` given the draw `r`. */
  function Replacement(c: char, r: Nibble): char
    requires IsSlot(c)
  {
    Digit(if c == 'x' then r else VariantNibble(r))
  }

  /**
   * `t.replace(/[xy]/g, ...)` where the callback consumes one draw per
   * match, left to right: the k-th slot of `t` uses `rs[k]`.
   */
  function Fill(t: string, rs: seq<Nibble>): (s: string)
    requires |rs| == SlotCount(t)
    ensures |s| == |t|
    ensures forall i :: 0 <= i < |t| && !IsSlot(t[i]) ==> s[i] == t[i]
    ensures forall i :: 0 <= i < |t| && IsSlot(t[i]) ==>
      SlotCount(t[..i]) < |rs| && s[i] == Replacement(t[i], rs[SlotCount(t[..i])])
    decreases |t|
  {
    if t == [] then []
    else
      SlotCountPrefix(t);
      if IsSlot(t[0]) then [Replacement(t[0], rs[0])] + Fill(t[1..], rs[1..])
      else [t[0]] + Fill(t[1..], rs)
  }

  lemma FillSlots(t: string, rs: seq<Nibble>)
    requires |rs| == SlotCount(t)
    ensures forall i :: 0 <= i < |t| && t[i] == 'x' ==> IsLowerHex(Fill(t, rs)[i])
    ensures forall i :: 0 <= i < |t| && t[i] == 'y' ==> Fill(t, rs)[i] in "89ab"
  {
    var s := Fill(t, rs);
    forall i | 0 <= i < |t| && t[i] == 'y' ensures s[i] in "89ab" {
      var v := VariantNibble(rs[SlotCount(t[..i])]);
      assert s[i] == Digit(v);
      assert "89ab"[v - 8] == Digit(v);
    }
  }

  predicate IsHyphenIndex(i: int)
  {
    i == 8 || i == 13 || i == 18 || i == 23
  }

  /**
   * The text form of a version-4 UUID (section 4.4 of RFC 4122) in lower
   * case: 8-4-4-4-12 hex digits, version digit `4` at index 14 and the
   * variant digit (binary 10xx) at index 19.
   */
  predicate IsUuidV4(s: string)
  {
    && |s| == 36
    && (forall i :: 0 <= i < 36 ==> if IsHyphenIndex(i) then s[i] == '-' else IsLowerHex(s[i]))
    && s[14] == '4'
    && s[19] in "89ab"
  }

  lemma TemplateShape()
    ensures |Template| == 36
    ensures forall i :: 0 <= i < 36 && IsHyphenIndex(i) ==> Template[i] == '-'
    ensures forall i :: 0 <= i < 36 && !IsHyphenIndex(i) && i != 14 && i != 19 ==> Template[i] == 'x'
    ensures Template[14] == '4' && Template[19] == 'y'
  {
  }

  /** Filling the template with any draws gives a version-4 UUID text. */
  lemma FilledTemplateIsUuidV4(rs: seq<Nibble>)
    requires |rs| == Draws
    ensures SlotCount(Template) == Draws && IsUuidV4(Fill(Template, rs))
  {
    TemplateSlots();
    var s := Fill(Template, rs);
    TemplateShape();
    FillSlots(Template, rs);
    forall i | 0 <= i < 36
      ensures if IsHyphenIndex(i) then s[i] == '-' else IsLowerHex(s[i])
    {
      if IsHyphenIndex(i) {
        assert !IsSlot(Template[i]);
      } else if i == 14 {
        assert s[i] == '4';
      } else if i == 19 {
        assert s[i] in "89ab";
      } else {
        assert Template[i] == 'x';
      }
    }
    assert s[19] in "89ab";
  }

  /** `generateDeviceId()` of the store, given the 31 draws it makes. */
  function GenerateDeviceId(rs: seq<Nibble>): (id: string)
    requires |rs| == Draws
    ensures IsUuidV4(id)
  {
    TemplateSlots();
    FilledTemplateIsUuidV4(rs);
    Fill(Template, rs)
  }

  /**
   * What zustand's `persist` writes under `device-storage`: the state
   * without its function members, wrapped as `{ state, version: 0 }`.
   */
  function PersistedEnvelope(deviceId: Option<string>): Json
  {
    JObj(map[
      "state" := JObj(map["deviceId" := if deviceId.Some? then JStr(deviceId.value) else JNull]),
      "version" := JNum(0.0)])
  }

  /** The `useDeviceStore` state: one nullable id. */
  class DeviceStore {
    var deviceId: Option<string>

    /** The store's initial state. */
    constructor ()
      ensures deviceId == None
    {
      deviceId := None;
    }

    /** `currentId` is truthy: neither null nor the empty string. */
    predicate HasId()
      reads this
    {
      deviceId.Some? && deviceId.value != ""
    }

    /** The JSON value persisted for the current state. */
    function Persisted(): Json
      reads this
    {
      PersistedEnvelope(deviceId)
    }

    /** `initializeDeviceId()`, given the draws `generateDeviceId` would make. */
    method InitializeDeviceId(rs: seq<Nibble>)
      requires |rs| == Draws
      modifies this
      ensures old(HasId()) ==> deviceId == old(deviceId)
      ensures !old(HasId()) ==> deviceId == Some(GenerateDeviceId(rs))
      ensures HasId()
      ensures !old(HasId()) ==> IsUuidV4(deviceId.value)
    {
      var currentId := deviceId;
      if !(currentId.Some? && currentId.value != "") {
        var newId := GenerateDeviceId(rs);
        deviceId := Some(newId);
      }
    }
  }

  /** Once an id is set, a further initialisation keeps it, whatever it draws. */
  method InitializeTwice(store: DeviceStore, first: seq<Nibble>, second: seq<Nibble>)
    requires |first| == Draws && |second| == Draws
    modifies store
    ensures store.HasId()
    ensures old(store.HasId()) ==> store.deviceId == old(store.deviceId)
    ensures !old(store.HasId()) ==> store.deviceId == Some(GenerateDeviceId(first))
  {
    store.InitializeDeviceId(first);
    ghost var afterFirst := store.deviceId;
    store.InitializeDeviceId(second);
    assert store.deviceId == afterFirst;
  }
}
