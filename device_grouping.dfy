/** The device report script: registered device records, whose fields are
    string attributes (`{"S": ...}`), are grouped by customer, then by
    location, into a list of customers each holding its location groups. */
module DeviceGrouping {

  /** A string attribute value, `{"S": s}`. */
  datatype AttributeValue = S(s: string)

  datatype RegisteredDevice = RegisteredDevice(
    deviceId: AttributeValue,
    location: AttributeValue,
    customer: AttributeValue,
    provisionedAt: AttributeValue,
    deviceName: AttributeValue)

  /** `{'device_id': ..., 'device_name': ...}`. */
  datatype DeviceAtLocation = DeviceAtLocation(deviceId: string, deviceName: string)

  /** `{'location': loc, 'devices_at_location': [...]}`. */
  datatype LocationGroup = LocationGroup(location: string, devicesAtLocation: seq<DeviceAtLocation>)

  /** `{'customer': c, 'locations': [...]}`. */
  datatype CustomerDevices = CustomerDevices(customer: string, locations: seq<LocationGroup>)

  predicate Distinct(keys: seq<string>) {
    forall i, j :: 0 <= i < j < |keys| ==> keys[i] != keys[j]
  }

  function Elems(keys: seq<string>): set<string> {
    set x | x in keys
  }

  /** `{x['customer']['S'] for x in registered_devices}`. */
  function Customers(registered: seq<RegisteredDevice>): set<string> {
    set d | d in registered :: d.customer.s
  }

  /** The locations of customer `c`'s devices. */
  function CustomerLocations(registered: seq<RegisteredDevice>, c: string): set<string> {
    set d | d in registered && d.customer.s == c :: d.location.s
  }

  predicate Matches(device: RegisteredDevice, c: string, loc: string) {
    device.location.s == loc && device.customer.s == c
  }

  /** The output record of one device: its id and name, unwrapped. */
  function Unwrap(device: RegisteredDevice): DeviceAtLocation {
    DeviceAtLocation(device.deviceId.s, device.deviceName.s)
  }

  /** The records of the devices of customer `c` at `loc`, in input order. */
  function DevicesAt(registered: seq<RegisteredDevice>, c: string, loc: string): seq<DeviceAtLocation> {
    if registered == [] then []
    else
      var last := registered[|registered| - 1];
      DevicesAt(registered[..|registered| - 1], c, loc) + (if Matches(last, c, loc) then [Unwrap(last)] else [])
  }

  function CustomersOf(payload: seq<CustomerDevices>): seq<string> {
    seq(|payload|, i requires 0 <= i < |payload| => payload[i].customer)
  }

  function LocationsOf(groups: seq<LocationGroup>): seq<string> {
    seq(|groups|, j requires 0 <= j < |groups| => groups[j].location)
  }

  /** One customer's entry: each of its locations once, each group holding
      exactly the customer's devices there, in input order. */
  predicate IsCustomerEntry(entry: CustomerDevices, registered: seq<RegisteredDevice>) {
    && Distinct(LocationsOf(entry.locations))
    && Elems(LocationsOf(entry.locations)) == CustomerLocations(registered, entry.customer)
    && forall j :: 0 <= j < |entry.locations| ==>
         entry.locations[j].devicesAtLocation == DevicesAt(registered, entry.customer, entry.locations[j].location)
  }

  /** What the script builds: each customer once, each with its entry. */
  predicate IsGroupingOf(payload: seq<CustomerDevices>, registered: seq<RegisteredDevice>) {
    && Distinct(CustomersOf(payload))
    && Elems(CustomersOf(payload)) == Customers(registered)
    && forall i :: 0 <= i < |payload| ==> IsCustomerEntry(payload[i], registered)
  }

  /** `list(some_set)`: each element once, in an order the set's iteration
      happens to give, which the model leaves open. */
  method ListOfSet(s: set<string>) returns (keys: seq<string>)
    ensures Distinct(keys) && Elems(keys) == s
  {
    keys := [];
    var rest := s;
    while rest != {}
      invariant Distinct(keys)
      invariant Elems(keys) + rest == s
      invariant Elems(keys) !! rest
      decreases |rest|
    {
      var x :| x in rest;
      keys := keys + [x];
      rest := rest - {x};
    }
  }

  /** The grouping loops: for each distinct customer, for each of its
      distinct locations, one pass over all devices collects the ones that
      match both, unwrapped to id and name. */
  method GroupDevices(registeredDevices: seq<RegisteredDevice>) returns (payload: seq<CustomerDevices>)
    ensures IsGroupingOf(payload, registeredDevices)
  {
    var customers := ListOfSet(Customers(registeredDevices));
    payload := [];
    for ci := 0 to |customers|
      invariant CustomersOf(payload) == customers[..ci]
      invariant forall i :: 0 <= i < ci ==> IsCustomerEntry(payload[i], registeredDevices)
    {
      var c := customers[ci];
      var customerLocations := ListOfSet(CustomerLocations(registeredDevices, c));
      var customerLocationsCont: seq<LocationGroup> := [];
      for li := 0 to |customerLocations|
        invariant LocationsOf(customerLocationsCont) == customerLocations[..li]
        invariant forall j :: 0 <= j < li ==>
          customerLocationsCont[j].devicesAtLocation == DevicesAt(registeredDevices, c, customerLocations[j])
      {
        var loc := customerLocations[li];
        var devicesAtLocation: seq<DeviceAtLocation> := [];
        for k := 0 to |registeredDevices|
          invariant devicesAtLocation == DevicesAt(registeredDevices[..k], c, loc)
        {
          var device := registeredDevices[k];
          assert registeredDevices[..k + 1][..k] == registeredDevices[..k];
          if device.location.s == loc && device.customer.s == c {
            devicesAtLocation := devicesAtLocation + [DeviceAtLocation(device.deviceId.s, device.deviceName.s)];
          }
        }
        assert registeredDevices[..|registeredDevices|] == registeredDevices;
        customerLocationsCont := customerLocationsCont + [LocationGroup(loc, devicesAtLocation)];
      }
      assert customerLocations[..|customerLocations|] == customerLocations;
      payload := payload + [CustomerDevices(c, customerLocationsCont)];
    }
    assert customers[..|customers|] == customers;
  }

  /** Filtering distributes over concatenation: the devices of an earlier
      part of the input come before those of a later part. */
  lemma {:induction false} DevicesAtAppend(r1: seq<RegisteredDevice>, r2: seq<RegisteredDevice>, c: string, loc: string)
    ensures DevicesAt(r1 + r2, c, loc) == DevicesAt(r1, c, loc) + DevicesAt(r2, c, loc)
    decreases |r2|
  {
    if r2 == [] {
      assert r1 + r2 == r1;
    } else {
      var r2' := r2[..|r2| - 1];
      var last := r2[|r2| - 1];
      assert (r1 + r2)[..|r1 + r2| - 1] == r1 + r2';
      DevicesAtAppend(r1, r2', c, loc);
      var tail := if Matches(last, c, loc) then [Unwrap(last)] else [];
      assert (DevicesAt(r1, c, loc) + DevicesAt(r2', c, loc)) + tail
        == DevicesAt(r1, c, loc) + (DevicesAt(r2', c, loc) + tail);
    }
  }

  /** A group holds the record of a device exactly when some device of
      the customer sits at the location with that id and name. */
  lemma {:induction false} DevicesAtMembers(registered: seq<RegisteredDevice>, c: string, loc: string, x: DeviceAtLocation)
    ensures x in DevicesAt(registered, c, loc) <==>
      exists k :: 0 <= k < |registered| && Matches(registered[k], c, loc) && Unwrap(registered[k]) == x
    decreases |registered|
  {
    if registered != [] {
      var init := registered[..|registered| - 1];
      DevicesAtMembers(init, c, loc, x);
      if x in DevicesAt(init, c, loc) {
        var k :| 0 <= k < |init| && Matches(init[k], c, loc) && Unwrap(init[k]) == x;
        assert registered[k] == init[k];
      }
      if exists k :: 0 <= k < |registered| && Matches(registered[k], c, loc) && Unwrap(registered[k]) == x {
        var k :| 0 <= k < |registered| && Matches(registered[k], c, loc) && Unwrap(registered[k]) == x;
        if k < |init| {
          assert init[k] == registered[k];
        }
      }
    }
  }

  /** No location group is empty: every listed location has a device. */
  lemma NoEmptyGroup(payload: seq<CustomerDevices>, registered: seq<RegisteredDevice>, i: int, j: int)
    requires IsGroupingOf(payload, registered)
    requires 0 <= i < |payload| && 0 <= j < |payload[i].locations|
    ensures |payload[i].locations[j].devicesAtLocation| > 0
  {
    var entry := payload[i];
    var loc := entry.locations[j].location;
    assert LocationsOf(entry.locations)[j] == loc;
    assert loc in CustomerLocations(registered, entry.customer);
    var k :| 0 <= k < |registered| && registered[k].customer.s == entry.customer && registered[k].location.s == loc;
    DevicesAtMembers(registered, entry.customer, loc, Unwrap(registered[k]));
  }

  /** Group `(i, j)` is the one for the device's customer and location. */
  predicate GroupOf(payload: seq<CustomerDevices>, device: RegisteredDevice, i: int, j: int) {
    && 0 <= i < |payload| && 0 <= j < |payload[i].locations|
    && payload[i].customer == device.customer.s
    && payload[i].locations[j].location == device.location.s
  }

  /** Every device lands in exactly one group, the one for its customer
      and location, and its record is there. */
  lemma DeviceInOneGroup(payload: seq<CustomerDevices>, registered: seq<RegisteredDevice>, k: int)
    requires IsGroupingOf(payload, registered) && 0 <= k < |registered|
    ensures exists i, j ::
      GroupOf(payload, registered[k], i, j) && Unwrap(registered[k]) in payload[i].locations[j].devicesAtLocation
    ensures forall i, j, i', j' ::
      GroupOf(payload, registered[k], i, j) && GroupOf(payload, registered[k], i', j') ==> i == i' && j == j'
  {
    var d := registered[k];
    assert d.customer.s in Elems(CustomersOf(payload));
    var i :| 0 <= i < |payload| && CustomersOf(payload)[i] == d.customer.s;
    var entry := payload[i];
    assert d.location.s in Elems(LocationsOf(entry.locations));
    var j :| 0 <= j < |entry.locations| && LocationsOf(entry.locations)[j] == d.location.s;
    DevicesAtMembers(registered, d.customer.s, d.location.s, Unwrap(d));
    assert GroupOf(payload, d, i, j);
    forall i1, j1, i2, j2 | GroupOf(payload, d, i1, j1) && GroupOf(payload, d, i2, j2)
      ensures i1 == i2 && j1 == j2
    {
      assert CustomersOf(payload)[i1] == CustomersOf(payload)[i2];
      assert LocationsOf(payload[i1].locations)[j1] == LocationsOf(payload[i1].locations)[j2];
    }
  }

  /** How many times `x` occurs in `keys`. */
  function Occurrences(keys: seq<string>, x: string): nat {
    if keys == [] then 0
    else Occurrences(keys[..|keys| - 1], x) + (if keys[|keys| - 1] == x then 1 else 0)
  }

  lemma {:induction false} OccurrencesOfDistinct(keys: seq<string>, x: string)
    requires Distinct(keys)
    ensures Occurrences(keys, x) == if x in keys then 1 else 0
    decreases |keys|
  {
    if keys != [] {
      var init := keys[..|keys| - 1];
      OccurrencesOfDistinct(init, x);
      if keys[|keys| - 1] == x {
        assert x !in init;
      } else {
        assert x in keys <==> x in init;
      }
    }
  }

  /** The number of customer `c`'s devices. */
  function CountFor(registered: seq<RegisteredDevice>, c: string): nat {
    if registered == [] then 0
    else CountFor(registered[..|registered| - 1], c) + (if registered[|registered| - 1].customer.s == c then 1 else 0)
  }

  /** The sizes of customer `c`'s groups at `locs`, added up. */
  function SumLocations(registered: seq<RegisteredDevice>, c: string, locs: seq<string>): nat {
    if locs == [] then 0
    else SumLocations(registered, c, locs[..|locs| - 1]) + |DevicesAt(registered, c, locs[|locs| - 1])|
  }

  lemma {:induction false} SumLocationsSnoc(registered: seq<RegisteredDevice>, d: RegisteredDevice, c: string, locs: seq<string>)
    ensures SumLocations(registered + [d], c, locs)
      == SumLocations(registered, c, locs) + (if d.customer.s == c then Occurrences(locs, d.location.s) else 0)
    decreases |locs|
  {
    assert (registered + [d])[..|registered|] == registered;
    if locs != [] {
      SumLocationsSnoc(registered, d, c, locs[..|locs| - 1]);
    }
  }

  lemma {:induction false} SumLocationsNone(c: string, locs: seq<string>)
    ensures SumLocations([], c, locs) == 0
    decreases |locs|
  {
    if locs != [] {
      SumLocationsNone(c, locs[..|locs| - 1]);
    }
  }

  /** The groups at a customer's distinct locations together hold each of
      the customer's devices once. */
  lemma {:induction false} LocationSum(registered: seq<RegisteredDevice>, c: string, locs: seq<string>)
    requires Distinct(locs) && CustomerLocations(registered, c) <= Elems(locs)
    ensures SumLocations(registered, c, locs) == CountFor(registered, c)
    decreases |registered|
  {
    if registered == [] {
      SumLocationsNone(c, locs);
    } else {
      var init := registered[..|registered| - 1];
      var d := registered[|registered| - 1];
      assert init + [d] == registered;
      assert CustomerLocations(init, c) <= CustomerLocations(registered, c);
      LocationSum(init, c, locs);
      SumLocationsSnoc(init, d, c, locs);
      OccurrencesOfDistinct(locs, d.location.s);
      if d.customer.s == c {
        assert d.location.s in CustomerLocations(registered, c);
      }
    }
  }

  /** The device counts of customers `cs`, added up. */
  function SumCustomers(registered: seq<RegisteredDevice>, cs: seq<string>): nat {
    if cs == [] then 0
    else SumCustomers(registered, cs[..|cs| - 1]) + CountFor(registered, cs[|cs| - 1])
  }

  lemma {:induction false} SumCustomersSnoc(registered: seq<RegisteredDevice>, d: RegisteredDevice, cs: seq<string>)
    ensures SumCustomers(registered + [d], cs) == SumCustomers(registered, cs) + Occurrences(cs, d.customer.s)
    decreases |cs|
  {
    assert (registered + [d])[..|registered|] == registered;
    if cs != [] {
      SumCustomersSnoc(registered, d, cs[..|cs| - 1]);
    }
  }

  lemma {:induction false} SumCustomersNone(cs: seq<string>)
    ensures SumCustomers([], cs) == 0
    decreases |cs|
  {
    if cs != [] {
      SumCustomersNone(cs[..|cs| - 1]);
    }
  }

  /** Distinct customers covering every device account for every device
      once. */
  lemma {:induction false} CustomerSum(registered: seq<RegisteredDevice>, cs: seq<string>)
    requires Distinct(cs) && Customers(registered) <= Elems(cs)
    ensures SumCustomers(registered, cs) == |registered|
    decreases |registered|
  {
    if registered == [] {
      SumCustomersNone(cs);
    } else {
      var init := registered[..|registered| - 1];
      var d := registered[|registered| - 1];
      assert init + [d] == registered;
      assert Customers(init) <= Customers(registered);
      CustomerSum(init, cs);
      SumCustomersSnoc(init, d, cs);
      OccurrencesOfDistinct(cs, d.customer.s);
      assert d.customer.s in Customers(registered);
    }
  }

  /** The number of devices in some location groups. */
  function GroupTotal(groups: seq<LocationGroup>): nat {
    if groups == [] then 0
    else GroupTotal(groups[..|groups| - 1]) + |groups[|groups| - 1].devicesAtLocation|
  }

  /** The number of devices in the whole payload. */
  function PayloadTotal(payload: seq<CustomerDevices>): nat {
    if payload == [] then 0
    else PayloadTotal(payload[..|payload| - 1]) + GroupTotal(payload[|payload| - 1].locations)
  }

  lemma {:induction false} GroupTotalIsSum(groups: seq<LocationGroup>, registered: seq<RegisteredDevice>, c: string)
    requires forall j :: 0 <= j < |groups| ==> groups[j].devicesAtLocation == DevicesAt(registered, c, groups[j].location)
    ensures GroupTotal(groups) == SumLocations(registered, c, LocationsOf(groups))
    decreases |groups|
  {
    if groups != [] {
      var init := groups[..|groups| - 1];
      assert LocationsOf(groups)[..|groups| - 1] == LocationsOf(init);
      GroupTotalIsSum(init, registered, c);
    }
  }

  /** A customer's groups hold exactly that customer's devices. */
  lemma EntryTotal(entry: CustomerDevices, registered: seq<RegisteredDevice>)
    requires IsCustomerEntry(entry, registered)
    ensures GroupTotal(entry.locations) == CountFor(registered, entry.customer)
  {
    GroupTotalIsSum(entry.locations, registered, entry.customer);
    LocationSum(registered, entry.customer, LocationsOf(entry.locations));
  }

  lemma {:induction false} PayloadTotalIsSum(payload: seq<CustomerDevices>, registered: seq<RegisteredDevice>)
    requires forall i :: 0 <= i < |payload| ==> IsCustomerEntry(payload[i], registered)
    ensures PayloadTotal(payload) == SumCustomers(registered, CustomersOf(payload))
    decreases |payload|
  {
    if payload != [] {
      var init := payload[..|payload| - 1];
      assert CustomersOf(payload)[..|payload| - 1] == CustomersOf(init);
      PayloadTotalIsSum(init, registered);
      EntryTotal(payload[|payload| - 1], registered);
    }
  }

  /** The groups partition the input: their sizes add up to the number of
      registered devices. */
  lemma PayloadCountsEveryDevice(payload: seq<CustomerDevices>, registered: seq<RegisteredDevice>)
    requires IsGroupingOf(payload, registered)
    ensures PayloadTotal(payload) == |registered|
  {
    PayloadTotalIsSum(payload, registered);
    CustomerSum(registered, CustomersOf(payload));
  }
}
