/** The walk over ACPI resource descriptors (include/kernel/acpi/resources.h; section 6.4 of the ACPI specification). */
module AcpiResources {
  type Byte = b: nat | b < 256

  /** A small descriptor has a four-bit name and up to seven bytes, a large one a seven-bit name and a 16-bit length. */
  datatype Descriptor = Small(name: nat, data: seq<Byte>) | Large(name: nat, data: seq<Byte>)

  predicate WellFormed(d: Descriptor) {
    match d
    case Small(name, data) => name < 16 && |data| < 8
    case Large(name, data) => name < 128 && |data| < 0x1_0000
  }

  function Encode(d: Descriptor): (s: seq<Byte>)
    requires WellFormed(d)
  {
    match d
    case Small(name, data) => [(name * 8 + |data|) as Byte] + data
    case Large(name, data) => [(128 + name) as Byte, (|data| % 256) as Byte, (|data| / 256) as Byte] + data
  }

  function EncodeAll(ds: seq<Descriptor>): seq<Byte>
    requires forall i :: 0 <= i < |ds| ==> WellFormed(ds[i])
  {
    if ds == [] then [] else Encode(ds[0]) + EncodeAll(ds[1..])
  }

  const LARGE_BASE := 0x100

  /** ACPI_RESOURCE_ITEM_NAME and ACPI_RESOURCE_SIZE of the descriptor at the front. */
  function ItemName(s: seq<Byte>): nat
    requires s != []
  {
    if s[0] >= 128 then LARGE_BASE + (s[0] as int) % 128 else (s[0] as int) / 8 % 16
  }

  function Size(s: seq<Byte>): (n: nat)
    requires s != [] && (s[0] >= 128 ==> |s| >= 3)
    ensures n > 0
  {
    if s[0] >= 128 then (s[1] as int) + 256 * (s[2] as int) + 3 else (s[0] as int) % 8 + 1
  }

  function NameOf(d: Descriptor): nat { if d.Large? then 0x100 + d.name else d.name }

  datatype Item = Item(name: nat, size: nat)

  function ItemOf(d: Descriptor): Item
    requires WellFormed(d)
  {
    Item(NameOf(d), |Encode(d)|)
  }

  /** The header read back from an encoded descriptor, whatever follows it. */
  lemma ReadBack(d: Descriptor, rest: seq<Byte>)
    requires WellFormed(d)
    ensures var s := Encode(d) + rest;
      s != [] && (s[0] >= 128 ==> |s| >= 3) && Item(ItemName(s), Size(s)) == ItemOf(d)
  {
    match d
    case Small(name, data) => assert (Encode(d) + rest)[0] == name * 8 + |data|;
    case Large(name, data) =>
  }

  function ItemsOf(ds: seq<Descriptor>): seq<Item>
    requires forall i :: 0 <= i < |ds| ==> WellFormed(ds[i])
  {
    if ds == [] then [] else [ItemOf(ds[0])] + ItemsOf(ds[1..])
  }

  /** What the walk finds at a position where the encoding of ds begins. */
  lemma AtFront(ds: seq<Descriptor>)
    requires forall i :: 0 <= i < |ds| ==> WellFormed(ds[i])
    ensures var s := EncodeAll(ds);
      s != [] <==> ds != []
    ensures ds != [] ==> var s := EncodeAll(ds);
      && (s[0] >= 128 ==> |s| >= 3) && Size(s) <= |s|
      && Item(ItemName(s), Size(s)) == ItemOf(ds[0]) && s[Size(s)..] == EncodeAll(ds[1..])
      && ItemsOf(ds) == [Item(ItemName(s), Size(s))] + ItemsOf(ds[1..])
  {
    if ds != [] { ReadBack(ds[0], EncodeAll(ds[1..])); }
  }

  /** ACPI_RESOURCES_FOR_EACH: stops at the end, or at a descriptor that does not fit. A large header cut short is
      taken not to fit, as any length would make it. */
  method Walk(data: seq<Byte>, ghost ds: seq<Descriptor>) returns (items: seq<Item>)
    requires forall i :: 0 <= i < |ds| ==> WellFormed(ds[i])
    ensures data == EncodeAll(ds) ==> items == ItemsOf(ds)
  {
    hide EncodeAll, ItemsOf, Size, ItemName;
    items := [];
    var p: nat := 0;
    ghost var left := ds;
    ghost var known := data == EncodeAll(ds);
    assert data[0..] == data;
    while p < |data|
      invariant p <= |data| && forall i :: 0 <= i < |left| ==> WellFormed(left[i])
      invariant known ==> data[p..] == EncodeAll(left) && ItemsOf(ds) == items + ItemsOf(left)
      decreases |data| - p
    {
      AtFront(left);
      if data[p] >= 128 && |data| - p < 3 { break; }
      var size := Size(data[p..]);
      if p + size > |data| { break; }
      items := items + [Item(ItemName(data[p..]), size)];
      assert data[p..][size..] == data[p + size..];
      p := p + size;
      left := if left == [] then [] else left[1..];
    }
    AtFront(left);
    NoItems();
  }

  lemma NoItems()
    ensures ItemsOf([]) == []
  {}
}
