/** The three collections the handlers read and write, taken together so
    that each handler is one atomic step over them. */
module State {
  import opened Slots
  import opened Bookings
  import opened Users

  datatype Store = Store(slots: seq<Slot>, bookings: seq<Booking>, users: seq<User>)
}
