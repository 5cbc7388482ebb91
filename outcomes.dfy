/**
 * What a handler answers. The source replies with `success` and a human-readable
 * `message`; each distinct message of the handlers modelled here is one `Failure`.
 */
module Outcomes {

  datatype Failure =
    | AuthenticationRequired      // "Authentication required. Please login."
    | FieldsRequired              // "All fields are required for registration."
    | PasswordMismatch            // "Passwords do not match."
    | PasswordTooShort            // "Password must be at least 6 characters."
    | InvalidEmail                // "Invalid email format."
    | UsernameOrEmailTaken        // "Username or email already taken."
    | ReferralCodeTaken           // derived referral code already in use (see README, Findings)
    | SpinAdLimitReached          // "Max ads for spins watched today (10)."
    | NoSpinsLeft                 // "No spins left. Watch an ad for more."
    | AdLimitReached              // "Max ads for points watched today."
    | InvalidTaskId               // "Invalid task ID: ..."
    | TaskAlreadyCompleted        // "Task already completed today."
    | EmptyReferralCode           // "Referral code cannot be empty."
    | ReferralAlreadySubmitted    // "Referral code already submitted."
    | InvalidReferralCode         // "Invalid referral code or self-referral."
    | InvalidAmount               // "Invalid withdrawal amount."
    | MethodAndDetailsRequired    // "Method and details required."
    | NotEnoughPoints             // "Not enough points."
    | LowTierAlreadyUsed          // "4600 points option already used."

  datatype Status = Ok | Fail(reason: Failure)
}
